/** Well-formed UTF-8 (Unicode Standard, table 3-7), the invariant of every Rust `String`. */
module Utf8 {
  import opened Wire

  predicate Between(b: Byte, lo: Byte, hi: Byte) {
    lo <= b <= hi
  }

  predicate Continues(s: Bytes, from: nat, to: nat) {
    to <= |s| && forall i | from <= i < to :: Between(s[i], 0x80, 0xBF)
  }

  /** Length of the scalar value at the front of `s`, or 0 when there is none. */
  function ScalarLength(s: Bytes): (n: nat)
    ensures n <= |s|
  {
    if s == [] then 0
    else if s[0] < 0x80 then 1
    else if Between(s[0], 0xC2, 0xDF) && Continues(s, 1, 2) then 2
    else if Continues(s, 1, 3)
            && ((s[0] == 0xE0 && s[1] >= 0xA0)
                || Between(s[0], 0xE1, 0xEC)
                || (s[0] == 0xED && s[1] <= 0x9F)
                || Between(s[0], 0xEE, 0xEF)) then 3
    else if Continues(s, 1, 4)
            && ((s[0] == 0xF0 && s[1] >= 0x90)
                || Between(s[0], 0xF1, 0xF3)
                || (s[0] == 0xF4 && s[1] <= 0x8F)) then 4
    else 0
  }

  predicate Valid(s: Bytes) {
    s == [] || (ScalarLength(s) > 0 && Valid(s[ScalarLength(s)..]))
  }

  /** `chars().count()`: the number of code points. */
  function Chars(s: Bytes): nat
    requires Valid(s)
  {
    if s == [] then 0 else 1 + Chars(s[ScalarLength(s)..])
  }

  // What these bytes are: encoded lists of Unicode scalar values.

  /** A code point that is no surrogate. */
  predicate IsScalar(c: nat) {
    c < 0xD800 || 0xE000 <= c < 0x11_0000
  }

  /** A byte that carries the last six bits of `n`. */
  function Trail(n: nat): Byte {
    0x80 + n % 64
  }

  /** UTF-8 encoding form (Unicode Standard, table 3-6). */
  function EncodeScalar(c: nat): (r: Bytes)
    requires IsScalar(c)
    ensures 1 <= |r| <= 4
  {
    if c < 0x80 then [c]
    else if c < 0x800 then [0xC0 + c / 64, Trail(c)]
    else if c < 0x1_0000 then [0xE0 + c / 4096, Trail(c / 64), Trail(c)]
    else [0xF0 + c / 262144, Trail(c / 4096), Trail(c / 64), Trail(c)]
  }

  ghost predicate Scalars(cs: seq<nat>) {
    forall i | 0 <= i < |cs| :: IsScalar(cs[i])
  }

  ghost function EncodeScalars(cs: seq<nat>): Bytes
    requires Scalars(cs)
  {
    if cs == [] then [] else EncodeScalar(cs[0]) + EncodeScalars(cs[1..])
  }

  lemma Two(s: Bytes)
    requires |s| >= 2 && Between(s[0], 0xC2, 0xDF) && Continues(s, 1, 2)
    ensures exists c :: IsScalar(c) && EncodeScalar(c) == s[..2]
  {
    var a: nat, b: nat := s[0], s[1];
    var c := (a - 0xC0) * 64 + (b - 0x80);
    assert EncodeScalar(c) == s[..2];
  }

  lemma Three(s: Bytes)
    requires |s| >= 3 && 0xE0 <= s[0] <= 0xEF && Continues(s, 1, 3)
    requires s[0] == 0xE0 ==> s[1] >= 0xA0
    requires s[0] == 0xED ==> s[1] <= 0x9F
    ensures exists c :: IsScalar(c) && EncodeScalar(c) == s[..3]
  {
    var a: nat, b: nat, d: nat := s[0], s[1], s[2];
    var top := (a - 0xE0) * 64 + (b - 0x80);
    var c := top * 64 + (d - 0x80);
    assert c / 64 == top && c / 4096 == top / 64;
    assert EncodeScalar(c) == s[..3];
  }

  lemma Four(s: Bytes)
    requires |s| >= 4 && 0xF0 <= s[0] <= 0xF4 && Continues(s, 1, 4)
    requires s[0] == 0xF0 ==> s[1] >= 0x90
    requires s[0] == 0xF4 ==> s[1] <= 0x8F
    ensures exists c :: IsScalar(c) && EncodeScalar(c) == s[..4]
  {
    var a: nat, b: nat, d: nat, e: nat := s[0], s[1], s[2], s[3];
    var top := (a - 0xF0) * 64 + (b - 0x80);
    var mid := top * 64 + (d - 0x80);
    var c := mid * 64 + (e - 0x80);
    assert c / 64 == mid && c / 4096 == top && c / 262144 == top / 64;
    assert EncodeScalar(c) == s[..4];
  }

  /** What stands at the front is the encoding of a scalar value. */
  lemma FrontIsScalar(s: Bytes)
    requires ScalarLength(s) > 0
    ensures exists c :: IsScalar(c) && EncodeScalar(c) == s[..ScalarLength(s)]
  {
    if s[0] < 0x80 {
      assert EncodeScalar(s[0]) == s[..1];
    } else if ScalarLength(s) == 2 {
      Two(s);
    } else if ScalarLength(s) == 3 {
      Three(s);
    } else {
      Four(s);
    }
  }

  /** And the encoding of any scalar value is found at the front. */
  lemma ScalarAtFront(c: nat, tail: Bytes)
    requires IsScalar(c)
    ensures ScalarLength(EncodeScalar(c) + tail) == |EncodeScalar(c)|
  {
  }

  /** Bytes are valid exactly if they encode a list of scalar values. */
  lemma {:induction false} ValidExactly(s: Bytes)
    ensures Valid(s) <==> exists cs :: Scalars(cs) && EncodeScalars(cs) == s
    decreases |s|
  {
    hide ScalarLength, EncodeScalar, IsScalar;
    if s == [] {
      assert Scalars([]) && EncodeScalars([]) == s;
    } else {
      if Valid(s) {
        var n := ScalarLength(s);
        FrontIsScalar(s);
        var c :| IsScalar(c) && EncodeScalar(c) == s[..n];
        ValidExactly(s[n..]);
        var cs :| Scalars(cs) && EncodeScalars(cs) == s[n..];
        assert ([c] + cs)[1..] == cs && s == s[..n] + s[n..];
        assert Scalars([c] + cs) && EncodeScalars([c] + cs) == s;
      }
      if cs :| Scalars(cs) && EncodeScalars(cs) == s {
        CharsExactly(cs);
      }
    }
  }

  /** The number of characters is the number of scalar values encoded. */
  lemma {:induction false} CharsExactly(cs: seq<nat>)
    requires Scalars(cs)
    ensures Valid(EncodeScalars(cs)) && Chars(EncodeScalars(cs)) == |cs|
    decreases |cs|
  {
    hide ScalarLength, EncodeScalar, IsScalar;
    if cs != [] {
      var front, rest := EncodeScalar(cs[0]), EncodeScalars(cs[1..]);
      CharsExactly(cs[1..]);
      ScalarAtFront(cs[0], rest);
      assert (front + rest)[|front|..] == rest;
    }
  }
}
