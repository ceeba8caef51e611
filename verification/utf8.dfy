/** UTF-8, as `Buffer.from(text, "utf8")` and `buffer.toString("utf8")` apply it. */
module Utf8 {
  import opened Sequences

  type Byte = b: int | 0 <= b < 0x100

  function EncodeChar(c: char): (r: seq<Byte>)
    ensures 1 <= |r| <= 4
  {
    var n := c as int;
    if n < 0x80 then [n]
    else if n < 0x800 then [0xC0 + n / 64, 0x80 + n % 64]
    else if n < 0x1_0000 then [0xE0 + n / 64 / 64, 0x80 + n / 64 % 64, 0x80 + n % 64]
    else [0xF0 + n / 64 / 64 / 64, 0x80 + n / 64 / 64 % 64, 0x80 + n / 64 % 64, 0x80 + n % 64]
  }

  function Encode(text: string): seq<Byte> {
    if text == "" then [] else EncodeChar(text[0]) + Encode(text[1..])
  }

  /** `Buffer.byteLength(text, "utf8")` */
  function ByteLength(text: string): nat {
    |Encode(text)|
  }

  predicate IsContinuation(b: Byte) {
    0x80 <= b < 0xC0
  }

  const REPLACEMENT: char := '\U{FFFD}'

  function ToChar(n: int): char {
    if 0 <= n < 0xD800 || 0xE000 <= n < 0x11_0000 then n as char else REPLACEMENT
  }

  /** How many of the first bytes begin a character that the end of the input cuts off. */
  function CutOff(bytes: seq<Byte>): (n: nat)
    ensures n <= |bytes| < 4 || n == 0
  {
    var b := if bytes == [] then 0 else bytes[0];
    if 0xC0 <= b < 0xF8 && |bytes| == 1 then 1
    else if 0xE0 <= b < 0xF8 && |bytes| == 2 && IsContinuation(bytes[1]) then 2
    else if 0xF0 <= b < 0xF8 && |bytes| == 3 && IsContinuation(bytes[1]) && IsContinuation(bytes[2]) then 3
    else 0
  }

  /** The first character and the number of bytes it takes; a stray byte or a character cut off is replaced. */
  function DecodeHead(bytes: seq<Byte>): (r: (char, nat))
    requires bytes != []
    ensures 1 <= r.1 <= |bytes|
  {
    var b: int := bytes[0];
    if b < 0x80 then (ToChar(b), 1)
    else if 0xC0 <= b < 0xE0 && |bytes| >= 2 && IsContinuation(bytes[1]) then
      (ToChar((b - 0xC0) * 64 + Payload(bytes[1])), 2)
    else if 0xE0 <= b < 0xF0 && |bytes| >= 3 && IsContinuation(bytes[1]) && IsContinuation(bytes[2]) then
      (ToChar(((b - 0xE0) * 64 + Payload(bytes[1])) * 64 + Payload(bytes[2])), 3)
    else if 0xF0 <= b < 0xF8 && |bytes| >= 4 && IsContinuation(bytes[1]) && IsContinuation(bytes[2]) && IsContinuation(bytes[3]) then
      (ToChar((((b - 0xF0) * 64 + Payload(bytes[1])) * 64 + Payload(bytes[2])) * 64 + Payload(bytes[3])), 4)
    else (REPLACEMENT, if CutOff(bytes) > 0 then CutOff(bytes) else 1)
  }

  function Payload(b: Byte): int {
    b - 0x80
  }

  function Decode(bytes: seq<Byte>): string {
    if bytes == [] then ""
    else
      var head := DecodeHead(bytes);
      [head.0] + Decode(bytes[head.1..])
  }

  lemma Recombine(n: nat)
    ensures n / 64 * 64 + n % 64 == n
    ensures n / 64 < 64 ==> n < 4096
  {
  }

  lemma DecodeHeadEncoded(c: char, rest: seq<Byte>)
    ensures DecodeHead(EncodeChar(c) + rest) == (c, |EncodeChar(c)|)
  {
    var n := c as int;
    Recombine(n);
    Recombine(n / 64);
    Recombine(n / 64 / 64);
  }

  lemma DecodeStep(bytes: seq<Byte>, c: char, n: nat)
    requires bytes != [] && DecodeHead(bytes) == (c, n)
    ensures n <= |bytes| && Decode(bytes) == [c] + Decode(bytes[n..])
  {
  }

  lemma OneDecoded(c: char, rest: seq<Byte>)
    ensures Decode(EncodeChar(c) + rest) == [c] + Decode(rest)
  {
    DecodeHeadEncoded(c, rest);
    DecodeStep(EncodeChar(c) + rest, c, |EncodeChar(c)|);
    assert (EncodeChar(c) + rest)[|EncodeChar(c)|..] == rest;
  }

  lemma {:induction false} DecodeEncoded(text: string, rest: seq<Byte>)
    ensures Decode(Encode(text) + rest) == text + Decode(rest)
  {
    if text == "" {
      assert Encode(text) + rest == rest;
    } else {
      DecodeEncoded(text[1..], rest);
      OneDecoded(text[0], Encode(text[1..]) + rest);
      Regroup(text, rest, Decode(rest));
    }
  }

  lemma Regroup(text: string, rest: seq<Byte>, end: string)
    requires text != ""
    ensures Encode(text) + rest == EncodeChar(text[0]) + (Encode(text[1..]) + rest)
    ensures [text[0]] + (text[1..] + end) == text + end
  {
    var head, tail := [text[0]], text[1..];
    assert text == head + tail;
    Associate(head, tail, end);
    Associate(EncodeChar(text[0]), Encode(tail), rest);
  }

  /** Decoding gives back what was encoded. */
  lemma DecodeEncode(text: string)
    ensures Decode(Encode(text)) == text
  {
    DecodeEncoded(text, []);
    assert Encode(text) + [] == Encode(text);
    assert text + Decode([]) == text;
  }

  lemma {:induction false} EncodeConcat(a: string, b: string)
    ensures Encode(a + b) == Encode(a) + Encode(b)
  {
    if a == "" {
      assert a + b == b;
    } else {
      assert (a + b)[1..] == a[1..] + b;
      EncodeConcat(a[1..], b);
    }
  }

  /** Cutting the encoding after a whole piece of text leaves the encoding of the rest. */
  lemma EncodeDrop(a: string, b: string)
    ensures ByteLength(a) <= ByteLength(a + b)
    ensures Encode(a + b)[ByteLength(a)..] == Encode(b)
    ensures Decode(Encode(a + b)[ByteLength(a)..]) == b
  {
    EncodeConcat(a, b);
    DecodeEncode(b);
  }

  // --- a file that ends inside a character ---

  /** The characters that the first n bytes of a text's encoding complete. */
  function Whole(text: string, n: nat): string {
    if text == "" || n < |EncodeChar(text[0])| then "" else [text[0]] + Whole(text[1..], n - |EncodeChar(text[0])|)
  }

  /** The bytes of a character that has begun but is not complete. */
  ghost predicate Torn(bytes: seq<Byte>) {
    bytes == [] || exists c :: |bytes| < |EncodeChar(c)| && bytes == EncodeChar(c)[..|bytes|]
  }

  /** A byte prefix of some text's encoding is whole characters and perhaps a torn one. */
  lemma {:induction false} WholeAndTorn(text: string, file: seq<Byte>) returns (torn: seq<Byte>)
    requires file <= Encode(text)
    ensures file == Encode(Whole(text, |file|)) + torn && Torn(torn)
    decreases |text|
  {
    if text == "" {
      torn := [];
    } else if |EncodeChar(text[0])| <= |file| {
      PrefixBehind(EncodeChar(text[0]), Encode(text[1..]), file);
      torn := WholeAndTorn(text[1..], file[|EncodeChar(text[0])|..]);
      OneMoreWhole(text[0], Whole(text[1..], |file| - |EncodeChar(text[0])|), torn);
    } else {
      torn := file;
      TornAlone(text[0], Encode(text[1..]), file);
    }
  }

  lemma TornAlone(c: char, tail: seq<Byte>, file: seq<Byte>)
    requires |file| < |EncodeChar(c)| && file <= EncodeChar(c) + tail
    ensures Torn(file) && Encode("") + file == file
  {
    assert file == EncodeChar(c)[..|file|];
  }

  lemma PrefixBehind(head: seq<Byte>, tail: seq<Byte>, file: seq<Byte>)
    requires file <= head + tail && |head| <= |file|
    ensures file == head + file[|head|..] && file[|head|..] <= tail
  {
  }

  lemma OneMoreWhole(c: char, rest: string, torn: seq<Byte>)
    ensures Encode([c] + rest) + torn == EncodeChar(c) + (Encode(rest) + torn)
  {
    assert ([c] + rest)[1..] == rest;
  }

  /** A torn character decodes to the replacement character. */
  lemma TornDecodes(torn: seq<Byte>)
    requires Torn(torn)
    ensures Decode(torn) == if torn == [] then "" else [REPLACEMENT]
  {
    if torn != [] {
      var c :| |torn| < |EncodeChar(c)| && torn == EncodeChar(c)[..|torn|];
      TornHead(c, |torn|);
      assert torn[|torn|..] == [];
    }
  }

  lemma TornHead(c: char, n: nat)
    requires 0 < n < |EncodeChar(c)|
    ensures DecodeHead(EncodeChar(c)[..n]) == (REPLACEMENT, n)
  {
    Recombine(c as int);
    Recombine(c as int / 64);
    Recombine(c as int / 64 / 64);
  }

  /** The first and last characters of each length, as section 3 of RFC 3629 lays them out. */
  lemma BytesSpelledOut()
    ensures Encode("\U{7F}") == [0x7F]
    ensures Encode("\U{80}") == [0xC2, 0x80] && Encode("\U{7FF}") == [0xDF, 0xBF]
    ensures Encode("\U{800}") == [0xE0, 0xA0, 0x80] && Encode("\U{FFFF}") == [0xEF, 0xBF, 0xBF]
    ensures Encode("\U{10000}") == [0xF0, 0x90, 0x80, 0x80] && Encode("\U{10FFFF}") == [0xF4, 0x8F, 0xBF, 0xBF]
    ensures Decode([0xE2, 0x82]) == "\U{FFFD}"
  {
    Alone('\U{7F}', [0x7F]);
    Alone('\U{80}', [0xC2, 0x80]);
    Alone('\U{7FF}', [0xDF, 0xBF]);
    Alone('\U{800}', [0xE0, 0xA0, 0x80]);
    Alone('\U{FFFF}', [0xEF, 0xBF, 0xBF]);
    Alone('\U{10000}', [0xF0, 0x90, 0x80, 0x80]);
    Alone('\U{10FFFF}', [0xF4, 0x8F, 0xBF, 0xBF]);
    TornEuro();
  }

  lemma Alone(c: char, bytes: seq<Byte>)
    requires EncodeChar(c) == bytes
    ensures Encode([c]) == bytes
  {
    assert Encode([c]) == EncodeChar(c) + [];
  }

  /** A byte that begins or continues a longer character is replaced when it stands alone. */
  lemma StrayByte(b: Byte)
    requires b >= 0x80
    ensures Decode([b]) == "\U{FFFD}"
  {
    assert DecodeHead([b]) == ('\U{FFFD}', 1);
  }

  lemma TornEuro()
    ensures Decode([0xE2, 0x82]) == "\U{FFFD}"
  {
    assert DecodeHead([0xE2, 0x82]) == ('\U{FFFD}', 2);
  }

  /** More bytes never take characters back. */
  lemma {:induction false} WholeGrows(text: string, n: nat, m: nat)
    requires n <= m
    ensures Whole(text, n) <= Whole(text, m) <= text
    decreases |text|
  {
    if text != "" && |EncodeChar(text[0])| <= n {
      WholeGrows(text[1..], n - |EncodeChar(text[0])|, m - |EncodeChar(text[0])|);
    } else if text != "" && |EncodeChar(text[0])| <= m {
      WholeGrows(text[1..], 0, m - |EncodeChar(text[0])|);
    }
  }
}
