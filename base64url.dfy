/** The text encoding of encrypted blobs and vault keys (src/lib/crypto.ts):
    `arrayBufferToBase64Url` and `base64UrlToArrayBuffer`.

    Both build on the browser's `btoa` and `atob`. They are defined here
    directly: `Btoa` is the padded base64 of section 4 of RFC 4648 applied to a
    "binary string" (one character per byte), `Atob` is the forgiving-base64
    decode of the HTML standard. `Encode` is the independent reference: the
    unpadded base64url of section 5 of RFC 4648. */
module Base64Url {
  import opened Wrappers
  import opened Text

  /** One element of a `Uint8Array`. */
  type byte = b: int | 0 <= b < 256

  /** One base64 digit: six bits. */
  type sextet = v: int | 0 <= v < 64

  // ---------------------------------------------------------------------
  // Alphabets (RFC 4648 section 4, table 1; section 5, table 2)
  // ---------------------------------------------------------------------

  /** The standard alphabet: A-Z, a-z, 0-9, '+', '/'. */
  function StdChar(v: sextet): char
  {
    if v < 26 then ('A' as int + v) as char
    else if v < 52 then ('a' as int + (v - 26)) as char
    else if v < 62 then ('0' as int + (v - 52)) as char
    else if v == 62 then '+'
    else '/'
  }

  /** The URL- and filename-safe alphabet: as the standard one, with '-' and '_' for '+' and '/'. */
  function UrlChar(v: sextet): char
  {
    if v == 62 then '-' else if v == 63 then '_' else StdChar(v)
  }

  predicate IsAlphanumeric(c: char) {
    'A' <= c <= 'Z' || 'a' <= c <= 'z' || '0' <= c <= '9'
  }

  predicate IsStdChar(c: char) {
    IsAlphanumeric(c) || c == '+' || c == '/'
  }

  /** The characters the encoder may emit: `A-Z a-z 0-9 - _`. */
  predicate IsUrlChar(c: char) {
    IsAlphanumeric(c) || c == '-' || c == '_'
  }

  /** The digit value of a standard-alphabet character. */
  function StdValue(c: char): (v: sextet)
    requires IsStdChar(c)
    ensures StdChar(v) == c
  {
    if 'A' <= c <= 'Z' then c as int - 'A' as int
    else if 'a' <= c <= 'z' then c as int - 'a' as int + 26
    else if '0' <= c <= '9' then c as int - '0' as int + 52
    else if c == '+' then 62
    else 63
  }

  lemma StdCharIsStd(v: sextet)
    ensures IsStdChar(StdChar(v)) && StdValue(StdChar(v)) == v
    ensures IsUrlChar(UrlChar(v))
  {
  }

  // ---------------------------------------------------------------------
  // Bits: bytes to sextets and back
  // ---------------------------------------------------------------------

  /** The base64 digits of `bs` without padding, three bytes to four digits;
      a trailing group of one or two bytes gives two or three digits, with zero fill bits. */
  function Sextets(bs: seq<byte>): (vs: seq<sextet>)
  {
    if |bs| == 0 then []
    else if |bs| == 1 then [bs[0] / 4, (bs[0] % 4) * 16]
    else if |bs| == 2 then [bs[0] / 4, (bs[0] % 4) * 16 + bs[1] / 16, (bs[1] % 16) * 4]
    else Group(bs[0], bs[1], bs[2]) + Sextets(bs[3..])
  }

  /** The four digits of three bytes. */
  function Group(b0: byte, b1: byte, b2: byte): (vs: seq<sextet>)
    ensures |vs| == 4
  {
    [b0 / 4, (b0 % 4) * 16 + b1 / 16, (b1 % 16) * 4 + b2 / 64, b2 % 64]
  }

  /** The bytes spelled by base64 digits, four digits to three bytes; a trailing
      group of two or three digits gives one or two bytes and its left-over bits are
      discarded, a lone trailing digit gives nothing. */
  function FromSextets(vs: seq<sextet>): (bs: seq<byte>)
  {
    if |vs| <= 1 then []
    else
      var v0: int, v1: int := vs[0], vs[1];
      if |vs| == 2 then [v0 * 4 + v1 / 16]
      else
        var v2: int := vs[2];
        if |vs| == 3 then [v0 * 4 + v1 / 16, (v1 % 16) * 16 + v2 / 4]
        else
          var v3: int := vs[3];
          [v0 * 4 + v1 / 16, (v1 % 16) * 16 + v2 / 4, (v2 % 4) * 64 + v3] + FromSextets(vs[4..])
  }

  lemma OneByteRoundTrip(b0: byte)
    ensures FromSextets(Sextets([b0])) == [b0]
  {
    var vs := Sextets([b0]);
    assert vs[0] as int * 4 + vs[1] as int / 16 == b0;
  }

  lemma TwoBytesRoundTrip(b0: byte, b1: byte)
    ensures FromSextets(Sextets([b0, b1])) == [b0, b1]
  {
    var vs := Sextets([b0, b1]);
    assert vs[0] as int * 4 + vs[1] as int / 16 == b0;
    assert (vs[1] as int % 16) * 16 + vs[2] as int / 4 == b1;
  }

  lemma GroupRoundTrip(b0: byte, b1: byte, b2: byte)
    ensures var v0, v1, v2, v3 := b0 / 4, (b0 % 4) * 16 + b1 / 16, (b1 % 16) * 4 + b2 / 64, b2 % 64;
            v0 * 4 + v1 / 16 == b0 && (v1 % 16) * 16 + v2 / 4 == b1 && (v2 % 4) * 64 + v3 == b2
  {
  }

  lemma FromSextetsGroup(group: seq<sextet>, rest: seq<sextet>)
    requires |group| == 4
    ensures var v0: int, v1: int, v2: int, v3: int := group[0], group[1], group[2], group[3];
            FromSextets(group + rest) == [v0 * 4 + v1 / 16, (v1 % 16) * 16 + v2 / 4, (v2 % 4) * 64 + v3] + FromSextets(rest)
  {
    assert (group + rest)[4..] == rest;
  }

  /** n bytes give ceil(4n/3) digits. */
  lemma {:induction false} SextetsLength(bs: seq<byte>)
    ensures |Sextets(bs)| == (4 * |bs| + 2) / 3
  {
    if |bs| >= 3 {
      SextetsLength(bs[3..]);
    }
  }

  /** n digits give floor(3n/4) bytes. */
  lemma {:induction false} FromSextetsLength(vs: seq<sextet>)
    ensures |FromSextets(vs)| == (3 * |vs|) / 4
  {
    if |vs| >= 4 {
      FromSextetsLength(vs[4..]);
    }
  }

  /** The first three bytes turn into four digits and back. */
  lemma GroupStep(bs: seq<byte>)
    requires |bs| >= 3
    ensures FromSextets(Sextets(bs)) == bs[..3] + FromSextets(Sextets(bs[3..]))
  {
    var tail := Sextets(bs[3..]);
    assert Sextets(bs) == Group(bs[0], bs[1], bs[2]) + tail;
    GroupBytes(bs[0], bs[1], bs[2], tail);
    assert FromSextets(Sextets(bs)) == [bs[0], bs[1], bs[2]] + FromSextets(tail);
    TakeThree(bs);
  }

  lemma TakeThree(bs: seq<byte>)
    requires |bs| >= 3
    ensures bs[..3] == [bs[0], bs[1], bs[2]]
  {
  }

  lemma GroupBytes(b0: byte, b1: byte, b2: byte, tail: seq<sextet>)
    ensures FromSextets(Group(b0, b1, b2) + tail) == [b0, b1, b2] + FromSextets(tail)
  {
    FromSextetsGroup(Group(b0, b1, b2), tail);
    GroupRoundTrip(b0, b1, b2);
  }

  lemma ShortRoundTrip(bs: seq<byte>)
    requires 1 <= |bs| <= 2
    ensures FromSextets(Sextets(bs)) == bs
  {
    if |bs| == 1 {
      assert bs == [bs[0]];
      OneByteRoundTrip(bs[0]);
    } else {
      assert bs == [bs[0], bs[1]];
      TwoBytesRoundTrip(bs[0], bs[1]);
    }
  }

  /** Decoding the digits of any byte sequence restores it. */
  lemma {:induction false} SextetsRoundTrip(bs: seq<byte>)
    ensures FromSextets(Sextets(bs)) == bs
  {
    if 1 <= |bs| <= 2 {
      ShortRoundTrip(bs);
    } else if |bs| >= 3 {
      GroupStep(bs);
      SextetsRoundTrip(bs[3..]);
      assert bs == bs[..3] + bs[3..];
    }
  }

  // ---------------------------------------------------------------------
  // Digits to text
  // ---------------------------------------------------------------------

  function StdDigits(vs: seq<sextet>): (s: string)
    ensures |s| == |vs|
    ensures forall i :: 0 <= i < |vs| ==> s[i] == StdChar(vs[i])
  {
    seq(|vs|, i requires 0 <= i < |vs| => StdChar(vs[i]))
  }

  function UrlDigits(vs: seq<sextet>): (s: string)
    ensures |s| == |vs|
    ensures forall i :: 0 <= i < |vs| ==> s[i] == UrlChar(vs[i])
  {
    seq(|vs|, i requires 0 <= i < |vs| => UrlChar(vs[i]))
  }

  predicate AllStd(s: string) {
    forall i :: 0 <= i < |s| ==> IsStdChar(s[i])
  }

  function StdValues(s: string): (vs: seq<sextet>)
    requires AllStd(s)
    ensures |vs| == |s|
    ensures forall i :: 0 <= i < |s| ==> vs[i] == StdValue(s[i])
  {
    seq(|s|, i requires 0 <= i < |s| => StdValue(s[i]))
  }

  /** The reference encoder: unpadded base64url (RFC 4648 section 5, padding omitted
      as section 3.2 allows). Its length is ceil(4n/3) for n bytes. */
  function Encode(bs: seq<byte>): (s: string)
    ensures |s| == (4 * |bs| + 2) / 3
    ensures forall i :: 0 <= i < |s| ==> IsUrlChar(s[i])
  {
    var vs := Sextets(bs);
    SextetsLength(bs);
    assert forall i :: 0 <= i < |vs| ==> IsUrlChar(UrlChar(vs[i])) by {
      forall i | 0 <= i < |vs| { StdCharIsStd(vs[i]); }
    }
    UrlDigits(vs)
  }

  // ---------------------------------------------------------------------
  // Binary strings: one character per byte, as String.fromCharCode builds them
  // ---------------------------------------------------------------------

  predicate IsBinary(s: string) {
    forall i :: 0 <= i < |s| ==> s[i] as int < 256
  }

  function BinaryOf(bs: seq<byte>): (s: string)
    ensures |s| == |bs| && IsBinary(s)
    ensures forall i :: 0 <= i < |bs| ==> s[i] as int == bs[i]
  {
    seq(|bs|, i requires 0 <= i < |bs| => bs[i] as char)
  }

  function CodesOf(s: string): (bs: seq<byte>)
    requires IsBinary(s)
    ensures |bs| == |s|
    ensures forall i :: 0 <= i < |s| ==> bs[i] == s[i] as int
  {
    seq(|s|, i requires 0 <= i < |s| => s[i] as int)
  }

  // ---------------------------------------------------------------------
  // btoa / atob
  // ---------------------------------------------------------------------

  /** How many '=' the padded encoding of n bytes ends with. */
  function PadLength(n: nat): nat
  {
    if n % 3 == 0 then 0 else 3 - n % 3
  }

  /** `btoa`: padded standard base64 of a binary string; a character above
      U+00FF makes it throw. */
  function Btoa(binary: string): Option<string>
  {
    if IsBinary(binary)
    then Some(StdDigits(Sextets(CodesOf(binary))) + Repeat('=', PadLength(|binary|)))
    else None
  }

  /** Removes one or two trailing '=' (step 2 of forgiving-base64 decode). */
  function DropPadding(d: string): string
  {
    if |d| >= 2 && d[|d| - 2] == '=' && d[|d| - 1] == '=' then d[..|d| - 2]
    else if |d| >= 1 && d[|d| - 1] == '=' then d[..|d| - 1]
    else d
  }

  /** `atob`: forgiving-base64 decode. A length that is a multiple of four may end
      in one or two '='; after that a length of 1 mod 4, or any character outside
      the standard alphabet, makes it throw. Left-over bits are discarded. */
  function Atob(data: string): (r: Option<string>)
    ensures r.Some? ==> IsBinary(r.value)
  {
    AtobUnpadded(if |data| % 4 == 0 then DropPadding(data) else data)
  }

  /** Steps 3 to 5 of forgiving-base64 decode, after the padding is dropped. */
  function AtobUnpadded(d: string): (r: Option<string>)
    ensures r.Some? ==> IsBinary(r.value)
  {
    if |d| % 4 == 1 then None
    else if !AllStd(d) then None
    else Some(BinaryOf(FromSextets(StdValues(d))))
  }

  // ---------------------------------------------------------------------
  // The pipelines of `arrayBufferToBase64Url` and `base64UrlToArrayBuffer`
  // ---------------------------------------------------------------------

  /** `.replace(/\+/g, '-').replace(/\//g, '_')` */
  function ToUrlAlphabet(s: string): string
  {
    Replace(Replace(s, '+', '-'), '/', '_')
  }

  /** `.replace(/=+$/, '')`: drops every trailing '='. */
  function StripTrailingPadding(s: string): (r: string)
    ensures |r| <= |s| && r == s[..|r|]
    ensures r == [] || r[|r| - 1] != '='
    ensures forall i :: |r| <= i < |s| ==> s[i] == '='
  {
    if |s| > 0 && s[|s| - 1] == '=' then StripTrailingPadding(s[..|s| - 1]) else s
  }

  /** `.replace(/-/g, '+').replace(/_/g, '/')` */
  function FromUrlAlphabet(s: string): string
  {
    Replace(Replace(s, '-', '+'), '_', '/')
  }

  /** The number of '=' the decoder appends: `(4 - (len % 4)) % 4`. */
  function PadCount(len: nat): (k: nat)
    ensures k <= 3
    ensures (len + k) % 4 == 0
  {
    (4 - len % 4) % 4
  }

  /** `base64UrlToArrayBuffer` as a function: map the alphabet, re-pad, `atob`,
      take the character codes. `None` is the exception `atob` throws. */
  function Decode(s: string): Option<seq<byte>>
  {
    match Atob(Repadded(s))
    case None => None
    case Some(binary) => Some(CodesOf(binary))
  }

  /** The standard-alphabet text handed to `atob`. */
  function Repadded(s: string): string
  {
    var base64 := FromUrlAlphabet(s);
    base64 + Repeat('=', PadCount(|base64|))
  }

  lemma UrlAlphabetOfStdDigits(vs: seq<sextet>)
    ensures ToUrlAlphabet(StdDigits(vs)) == UrlDigits(vs)
  {
  }

  lemma StdAlphabetOfUrlDigits(vs: seq<sextet>)
    ensures FromUrlAlphabet(UrlDigits(vs)) == StdDigits(vs)
  {
  }

  lemma {:induction false} StripPaddingAfter(x: string, k: nat)
    requires x == [] || x[|x| - 1] != '='
    ensures StripTrailingPadding(x + Repeat('=', k)) == x
  {
    if k > 0 {
      assert (x + Repeat('=', k))[..|x| + k - 1] == x + Repeat('=', k - 1);
      StripPaddingAfter(x, k - 1);
    } else {
      assert x + Repeat('=', k) == x;
    }
  }

  lemma PadLengthOfLength(n: nat)
    ensures PadLength(n) == PadCount((4 * n + 2) / 3)
    ensures (4 * n + 2) / 3 % 4 != 1
  {
  }

  /** The pipeline of `arrayBufferToBase64Url`, `btoa` then the two replacements and the
      padding strip, equals the reference unpadded base64url encoding. */
  lemma EncoderPipelineIsBase64Url(bs: seq<byte>)
    ensures Btoa(BinaryOf(bs)).Some?
    ensures StripTrailingPadding(ToUrlAlphabet(Btoa(BinaryOf(bs)).value)) == Encode(bs)
  {
    var binary := BinaryOf(bs);
    assert CodesOf(binary) == bs;
    var vs := Sextets(bs);
    var pad := Repeat('=', PadLength(|bs|));
    ReplaceAppend(StdDigits(vs), pad, '+', '-');
    ReplaceAppend(Replace(StdDigits(vs), '+', '-'), Replace(pad, '+', '-'), '/', '_');
    assert ToUrlAlphabet(pad) == pad;
    UrlAlphabetOfStdDigits(vs);
    assert ToUrlAlphabet(Btoa(binary).value) == UrlDigits(vs) + pad;
    StripPaddingAfter(UrlDigits(vs), PadLength(|bs|));
  }

  /** `atob` accepts the standard digits of `vs` padded to a multiple of four. */
  lemma AtobOfPaddedDigits(vs: seq<sextet>)
    requires |vs| % 4 != 1
    ensures Atob(StdDigits(vs) + Repeat('=', PadCount(|vs|))) == Some(BinaryOf(FromSextets(vs)))
  {
    var std := StdDigits(vs);
    var padded := std + Repeat('=', PadCount(|vs|));
    DropPaddingOfDigits(vs);
    assert Atob(padded) == AtobUnpadded(std);
    StdValuesOfDigits(vs);
  }

  lemma DropPaddingOfDigits(vs: seq<sextet>)
    requires |vs| % 4 != 1
    ensures |StdDigits(vs) + Repeat('=', PadCount(|vs|))| % 4 == 0
    ensures DropPadding(StdDigits(vs) + Repeat('=', PadCount(|vs|))) == StdDigits(vs)
  {
    var std := StdDigits(vs);
    var k := PadCount(|vs|);
    var padded := std + Repeat('=', k);
    if k == 2 {
      assert padded[..|padded| - 2] == std;
    } else if k == 1 {
      StdCharIsStd(vs[|vs| - 1]);
      assert padded[..|padded| - 1] == std;
    } else if |vs| > 0 {
      StdCharIsStd(vs[|vs| - 1]);
    }
  }

  lemma StdValuesOfDigits(vs: seq<sextet>)
    requires |vs| % 4 != 1
    ensures AtobUnpadded(StdDigits(vs)) == Some(BinaryOf(FromSextets(vs)))
  {
    var std := StdDigits(vs);
    forall i | 0 <= i < |std| ensures IsStdChar(std[i]) {
      StdCharIsStd(vs[i]);
    }
    assert AllStd(std);
    var values := StdValues(std);
    forall i | 0 <= i < |vs| ensures values[i] == vs[i] {
      StdCharIsStd(vs[i]);
    }
    assert values == vs;
  }

  /** Base64url round trip: decoding the encoding of any byte sequence returns it. */
  lemma {:induction false} DecodeEncode(bs: seq<byte>)
    ensures Decode(Encode(bs)) == Some(bs)
  {
    var vs := Sextets(bs);
    SextetsLength(bs);
    StdAlphabetOfUrlDigits(vs);
    assert FromUrlAlphabet(Encode(bs)) == StdDigits(vs);
    PadLengthOfLength(|bs|);
    AtobOfPaddedDigits(vs);
    SextetsRoundTrip(bs);
    assert CodesOf(BinaryOf(bs)) == bs;
  }

  lemma AtobRejectsNonAlphabet(data: string, k: nat)
    requires |data| % 4 == 0
    requires k < |DropPadding(data)| && !IsStdChar(DropPadding(data)[k])
    ensures Atob(data) == None
  {
  }

  /** A text of length 1 mod 4 (after mapping) never decodes: `atob` rejects it. */
  lemma DecodeRejectsDanglingDigit(s: string)
    requires |s| % 4 == 1
    ensures Decode(s) == None
  {
    var base64 := FromUrlAlphabet(s);
    var padded := base64 + Repeat('=', PadCount(|base64|));
    assert |padded| == |s| + 3;
    assert padded[|padded| - 1] == '=' && padded[|padded| - 2] == '=';
    var d := DropPadding(padded);
    assert d == padded[..|padded| - 2];
    assert d[|d| - 1] == '=';
    assert !IsStdChar(d[|d| - 1]);
    AtobRejectsNonAlphabet(padded, |d| - 1);
  }

  // ---------------------------------------------------------------------
  // The loops of `arrayBufferToBase64Url` and `base64UrlToArrayBuffer`
  // ---------------------------------------------------------------------

  /** `arrayBufferToBase64Url`: the loop builds the binary string one
      `String.fromCharCode` at a time, then `btoa` and the replacements. */
  method ArrayBufferToBase64Url(buffer: array<byte>) returns (s: string)
    ensures s == Encode(buffer[..])
  {
    var binary := "";
    for i := 0 to buffer.Length
      invariant |binary| == i
      invariant forall k :: 0 <= k < i ==> binary[k] as int == buffer[k]
    {
      binary := binary + [buffer[i] as char];
    }
    assert binary == BinaryOf(buffer[..]);
    EncoderPipelineIsBase64Url(buffer[..]);
    var encoded := Btoa(binary);
    s := StripTrailingPadding(ToUrlAlphabet(encoded.value));
  }

  /** `base64UrlToArrayBuffer`: re-pad, `atob` (which may throw: `None`), then
      the loop copies each character code into a fresh buffer. */
  method Base64UrlToArrayBuffer(base64url: string) returns (r: Option<array<byte>>)
    ensures r.None? <==> Decode(base64url).None?
    ensures r.Some? ==> r.value[..] == Decode(base64url).value
  {
    var decoded := Atob(Repadded(base64url));
    if decoded.None? {
      return None;
    }
    var buffer := CopyCodes(decoded.value);
    r := Some(buffer);
  }

  /** The copy loop of `base64UrlToArrayBuffer`: each byte is the code of the
      character at the same position. */
  method CopyCodes(binary: string) returns (buffer: array<byte>)
    requires IsBinary(binary)
    ensures buffer[..] == CodesOf(binary)
  {
    buffer := new byte[|binary|];
    for i := 0 to |binary|
      invariant forall k :: 0 <= k < i ==> buffer[k] == binary[k] as int
    {
      buffer[i] := binary[i] as int;
    }
  }
}
