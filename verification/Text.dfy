/** Whitespace, trimming and word splitting as Rust's `str` defines them, and UTF-8. */
module Text {
  /** The ranges of the Unicode White_Space property. */
  const WHITESPACE := [
    ('\t', '\r'), (' ', ' '), ('\U{85}', '\U{85}'), ('\U{A0}', '\U{A0}'), ('\U{1680}', '\U{1680}'),
    ('\U{2000}', '\U{200A}'), ('\U{2028}', '\U{2029}'), ('\U{202F}', '\U{202F}'), ('\U{205F}', '\U{205F}'),
    ('\U{3000}', '\U{3000}')]

  predicate InRanges(c: char, ranges: seq<(char, char)>) {
    ranges != [] && (ranges[0].0 <= c <= ranges[0].1 || InRanges(c, ranges[1..]))
  }

  /** `char::is_whitespace`. */
  predicate IsWhitespace(c: char) {
    InRanges(c, WHITESPACE)
  }

  lemma {:induction false} InRangesMeaning(c: char, ranges: seq<(char, char)>)
    ensures InRanges(c, ranges) <==> exists i :: 0 <= i < |ranges| && ranges[i].0 <= c <= ranges[i].1
  {
    if ranges != [] {
      InRangesMeaning(c, ranges[1..]);
      assert ranges == [ranges[0]] + ranges[1..];
    }
  }

  lemma WhitespaceBelow(c: char)
    requires c <= '\U{7F}'
    ensures IsWhitespace(c) <==> '\t' <= c <= '\r' || c == ' '
  {
    InRangesMeaning(c, WHITESPACE);
    assert WHITESPACE[0] == ('\t', '\r') && WHITESPACE[1] == (' ', ' ');
    assert forall i :: 2 <= i < |WHITESPACE| ==> WHITESPACE[i].0 > '\U{7F}';
  }

  /** `char::is_control`: general category Cc. */
  predicate IsControl(c: char) {
    c <= '\U{1F}' || '\U{7F}' <= c <= '\U{9F}'
  }

  predicate HasControl(s: string) {
    exists i :: 0 <= i < |s| && IsControl(s[i])
  }

  function AsciiLower(s: string): string {
    if s == [] then [] else [if 'A' <= s[0] <= 'Z' then ((s[0] as int) + 32) as char else s[0]] + AsciiLower(s[1..])
  }

  predicate Blank(s: string) {
    forall i :: 0 <= i < |s| ==> IsWhitespace(s[i])
  }

  function TrimStart(s: string): (r: string)
    ensures r != [] ==> !IsWhitespace(r[0])
  {
    if s != [] && IsWhitespace(s[0]) then TrimStart(s[1..]) else s
  }

  function TrimEnd(s: string): (r: string)
    ensures |r| <= |s| && r == s[..|r|]
    ensures r != [] ==> !IsWhitespace(r[|r| - 1])
  {
    if s != [] && IsWhitespace(s[|s| - 1]) then TrimEnd(s[..|s| - 1]) else s
  }

  /** A string that trimming leaves alone. */
  predicate Trimmed(s: string) {
    s == [] || (!IsWhitespace(s[0]) && !IsWhitespace(s[|s| - 1]))
  }

  function Trim(s: string): (r: string)
    ensures Trimmed(r)
  {
    var t := TrimStart(s);
    var r := TrimEnd(t);
    assert r != [] ==> r[0] == t[0];
    r
  }

  lemma TrimFixed(s: string)
    requires Trimmed(s)
    ensures Trim(s) == s
  {
  }

  lemma {:induction false} TrimStartDropsBlank(s: string)
    ensures |TrimStart(s)| <= |s| && TrimStart(s) == s[|s| - |TrimStart(s)|..]
    ensures Blank(s[..|s| - |TrimStart(s)|])
  {
    if s != [] && IsWhitespace(s[0]) {
      TrimStartDropsBlank(s[1..]);
      assert s[..|s| - |TrimStart(s)|] == [s[0]] + s[1..][..|s| - 1 - |TrimStart(s)|];
    }
  }

  lemma {:induction false} TrimEndDropsBlank(s: string)
    ensures Blank(s[|TrimEnd(s)|..])
  {
    if s != [] && IsWhitespace(s[|s| - 1]) {
      TrimEndDropsBlank(s[..|s| - 1]);
      assert s[|TrimEnd(s)|..] == s[..|s| - 1][|TrimEnd(s)|..] + [s[|s| - 1]];
    }
  }

  /** Trimming cuts a blank prefix and a blank suffix, so nothing is left exactly of a blank string. */
  lemma TrimMeaning(s: string) returns (lo: nat, hi: nat)
    ensures lo <= hi <= |s| && Trim(s) == s[lo..hi]
    ensures Blank(s[..lo]) && Blank(s[hi..])
    ensures Trim(s) == [] <==> Blank(s)
  {
    hide IsWhitespace;
    var t := TrimStart(s);
    TrimStartDropsBlank(s);
    TrimEndDropsBlank(t);
    lo := |s| - |t|;
    hi := lo + |Trim(s)|;
    assert s[hi..] == t[|Trim(s)|..];
    assert s == s[..lo] + s[lo..hi] + s[hi..];
    assert lo < hi ==> s[lo] == Trim(s)[0];
  }
}

/** UTF-8 (RFC 3629): a `str` is a sequence of scalar values, its length is counted in bytes. */
module Utf8 {
  type Byte = x: int | 0 <= x < 256

  predicate Continuation(b: Byte) {
    0x80 <= b < 0xC0
  }

  function EncodeChar(c: char): (r: seq<Byte>)
    ensures 1 <= |r| <= 4 && !Continuation(r[0])
    ensures c < '\U{80}' ==> r == [c as int]
    ensures c >= '\U{80}' ==> forall i :: 0 <= i < |r| ==> r[i] >= 0x80
  {
    var n := c as int;
    if n < 0x80 then [n]
    else if n < 0x800 then [0xC0 + n / 0x40, 0x80 + n % 0x40]
    else if n < 0x10000 then [0xE0 + n / 0x1000, 0x80 + n / 0x40 % 0x40, 0x80 + n % 0x40]
    else [0xF0 + n / 0x40000, 0x80 + n / 0x1000 % 0x40, 0x80 + n / 0x40 % 0x40, 0x80 + n % 0x40]
  }

  function Encode(s: string): seq<Byte> {
    if s == [] then [] else EncodeChar(s[0]) + Encode(s[1..])
  }

  function ByteLen(s: string): nat {
    |Encode(s)|
  }

  /** `str::is_char_boundary` on the encoded bytes. */
  predicate IsCharBoundary(bytes: seq<Byte>, i: nat) {
    i == 0 || i == |bytes| || (i < |bytes| && !Continuation(bytes[i]))
  }

  lemma {:induction false} EncodeConcat(a: string, b: string)
    ensures Encode(a + b) == Encode(a) + Encode(b)
  {
    if a == [] {
      assert a + b == b;
    } else {
      assert (a + b)[1..] == a[1..] + b;
      EncodeConcat(a[1..], b);
    }
  }

  lemma MiddleOf(a: seq<Byte>, b: seq<Byte>, c: seq<Byte>)
    ensures (a + b + c)[..|a|] == a && (a + b + c)[|a|..|a + b|] == b
  {
  }

  /** The bytes of a substring are the bytes between the offsets of its ends. */
  lemma EncodeSlice(s: string, i: nat, j: nat)
    requires i <= j <= |s|
    ensures ByteLen(s[..i]) <= ByteLen(s[..j]) <= ByteLen(s)
    ensures Encode(s)[..ByteLen(s[..i])] == Encode(s[..i])
    ensures Encode(s)[ByteLen(s[..i])..ByteLen(s[..j])] == Encode(s[i..j])
  {
    hide Encode;
    EncodeConcat(s[..i], s[i..j]);
    EncodeConcat(s[..j], s[j..]);
    assert s[..i] + s[i..j] == s[..j] && s[..j] + s[j..] == s;
    MiddleOf(Encode(s[..i]), Encode(s[i..j]), Encode(s[j..]));
  }

  /** Every character index is a character boundary of the encoded text. */
  lemma OffsetIsBoundary(s: string, i: nat)
    requires i <= |s|
    ensures ByteLen(s[..i]) <= ByteLen(s) && IsCharBoundary(Encode(s), ByteLen(s[..i]))
  {
    EncodeConcat(s[..i], s[i..]);
    assert s[..i] + s[i..] == s;
    if i < |s| {
      assert Encode(s)[ByteLen(s[..i])] == Encode(s[i..])[0] == EncodeChar(s[i])[0];
    }
  }

  function NewlineBytes(bytes: seq<Byte>): nat {
    if bytes == [] then 0 else NewlineBytes(bytes[..|bytes| - 1]) + (if bytes[|bytes| - 1] == 10 then 1 else 0)
  }

  lemma {:induction false} NewlineBytesConcat(a: seq<Byte>, b: seq<Byte>)
    ensures NewlineBytes(a + b) == NewlineBytes(a) + NewlineBytes(b)
  {
    if b == [] {
      assert a + b == a;
    } else {
      var n := |b| - 1;
      assert (a + b)[..|a + b| - 1] == a + b[..n];
      NewlineBytesConcat(a, b[..n]);
    }
  }

  lemma {:induction false} NoNewlineBytes(bytes: seq<Byte>)
    requires forall i :: 0 <= i < |bytes| ==> bytes[i] != 10
    ensures NewlineBytes(bytes) == 0
  {
    if bytes != [] {
      NoNewlineBytes(bytes[..|bytes| - 1]);
    }
  }

  lemma CharNewlineBytes(c: char)
    ensures NewlineBytes(EncodeChar(c)) == if c == '\n' then 1 else 0
  {
    var bytes := EncodeChar(c);
    if c == '\n' {
      assert bytes == [10] && [10][..0] == [];
      assert NewlineBytes([10]) == NewlineBytes([10][..0]) + 1;
    } else {
      NoNewlineBytes(bytes);
    }
  }
}
