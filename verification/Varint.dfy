/** Variable-length integers (desert/src/varint.rs). */
module Varint {
  import opened Wire

  /** The decoder looks at no more than this many bytes. */
  const MAX_DECODE: nat := 8

  /** 128^8: the first value that does not survive decoding. */
  const LIMIT: nat := 0x100_0000_0000_0000

  /** 64 minus the number of leading zeros: the position of the most significant bit. */
  function BitLength(v: nat): nat {
    if v == 0 then 0 else 1 + BitLength(v / 2)
  }

  /** Leading zeros of `v` seen as an `n`-bit word. */
  function LeadingZeros(v: nat, n: nat): nat
    requires v < Pow2(n)
    ensures LeadingZeros(v, n) <= n
  {
    if n == 0 || v >= Pow2(n - 1) then 0 else 1 + LeadingZeros(v, n - 1)
  }

  /** The closed formula of `length`. */
  function Length(v: nat): nat {
    (Max(BitLength(v), 1) + 6) / 7
  }

  /** The bytes the encoding loop writes: little-endian groups of seven bits. */
  function Encoding(v: nat): (r: Bytes)
    ensures |r| >= 1
  {
    if v <= 127 then [v] else [128 + v % 128] + Encoding(v / 128)
  }

  /** The decoding loop, limited to `n` bytes. */
  function DecodeWithin(buf: Bytes, n: nat): (r: Result<(nat, nat)>)
    ensures r.Ok? ==> r.value.0 <= |buf| && r.value.0 <= n
    ensures r.Ok? && n > 0 ==> r.value.0 > 0
    ensures r.Ok? ==> r.value.1 < Pow128(n)
  {
    if n == 0 then Ok((0, 0))
    else if buf == [] then Err(VarintSrcInsufficient)
    else if buf[0] < 128 then
      Pow128AtLeast(n);
      Ok((1, buf[0]))
    else
      var (s, v) :- DecodeWithin(buf[1..], n - 1);
      Ok((1 + s, buf[0] % 128 + 128 * v))
  }

  function Decode(buf: Bytes): (r: Result<(nat, nat)>)
    ensures r.Ok? ==> 1 <= r.value.0 <= Min(8, |buf|) && r.value.1 < LIMIT
  {
    Pow128Limit();
    DecodeWithin(buf, MAX_DECODE)
  }

  function Pow2(n: nat): nat {
    if n == 0 then 1 else 2 * Pow2(n - 1)
  }

  function Pow128(n: nat): (r: nat)
    ensures r >= 1
  {
    if n == 0 then 1 else 128 * Pow128(n - 1)
  }

  lemma Pow128AtLeast(n: nat)
    requires n >= 1
    ensures Pow128(n) >= 128
  {
  }

  lemma Pow128Limit()
    ensures Pow128(8) == LIMIT
  {
    assert Pow128(4) == 0x1000_0000;
    assert Pow128(6) == 128 * 128 * Pow128(4);
  }

  lemma {:induction false} Pow128Grows(m: nat, n: nat)
    requires m <= n
    ensures Pow128(m) <= Pow128(n)
    decreases n
  {
    if m < n {
      Pow128Grows(m, n - 1);
    }
  }

  // The digits.

  /** The digits of `v` to the base 128, least first, none of them in vain, each but the last marked with 128. */
  ghost predicate IsVarint(e: Bytes, v: nat) {
    && |e| >= 1 && v < Pow128(|e|) && (|e| > 1 ==> v >= Pow128(|e| - 1))
    && forall i | 0 <= i < |e| :: e[i] == v / Pow128(i) % 128 + if i + 1 < |e| then 128 else 0
  }

  lemma Regroup(b: nat, r: nat, d: nat, t: nat)
    ensures b * (r * d + t) == r * (b * d) + b * t
  {
    assert b * (r * d) == r * (b * d);
  }

  lemma DivTwice(v: nat, b: nat, d: nat)
    requires b > 0 && d > 0
    ensures v / b / d == v / (b * d)
  {
    var q, s := v / b, v % b;
    var r, t := q / d, q % d;
    Regroup(b, r, d, t);
    MulAtLeast(d - t, b);
    var bd, bt := b * d, b * t;
    assert (d - t) * b == bd - bt;
    assert v == r * bd + (bt + s);
    DivisionUnique(v, bd, r, bt + s);
  }

  lemma {:induction false} EncodingDigits(v: nat)
    ensures IsVarint(Encoding(v), v)
  {
    if v <= 127 {
      assert Pow128(0) == 1 && Pow128(1) == 128;
    } else {
      EncodingDigits(v / 128);
      DigitsCons(v, Encoding(v / 128));
    }
  }

  lemma DigitsCons(v: nat, rest: Bytes)
    requires v > 127 && IsVarint(rest, v / 128)
    ensures IsVarint([128 + v % 128] + rest, v)
  {
    var e := [128 + v % 128] + rest;
    BoundsShift(v, |rest|);
    FirstDigit(v);
    hide Pow128;
    forall i | 0 <= i < |e| ensures e[i] == v / Pow128(i) % 128 + if i + 1 < |e| then 128 else 0 {
      if i > 0 {
        assert e[i] == rest[i - 1];
        LaterDigit(v, i);
      }
    }
  }

  lemma BoundsShift(v: nat, n: nat)
    requires n >= 1 && v > 127
    ensures v / 128 < Pow128(n) ==> v < Pow128(n + 1)
    ensures (n > 1 ==> v / 128 >= Pow128(n - 1)) ==> v >= Pow128(n)
  {
    assert Pow128(0) == 1;
  }

  lemma FirstDigit(v: nat)
    ensures v / Pow128(0) == v
  {
  }

  lemma LaterDigit(v: nat, i: nat)
    requires i > 0
    ensures v / Pow128(i) == v / 128 / Pow128(i - 1)
  {
    assert Pow128(i) == 128 * Pow128(i - 1);
    hide Pow128;
    DivTwice(v, 128, Pow128(i - 1));
  }

  // Length: the leading-zeros formula counts the bytes the loop writes.

  lemma {:induction false} BitLengthShift7(v: nat)
    requires v >= 128
    ensures BitLength(v) == 7 + BitLength(v / 128)
  {
    var a, b, c := v / 2, v / 4, v / 8;
    var d, e, f := v / 16, v / 32, v / 64;
    assert a / 2 == b && b / 2 == c && c / 2 == d && d / 2 == e && e / 2 == f && f / 2 == v / 128;
    assert BitLength(v) == 1 + BitLength(a);
    assert BitLength(a) == 1 + BitLength(b);
    assert BitLength(b) == 1 + BitLength(c);
    assert BitLength(c) == 1 + BitLength(d);
    assert BitLength(d) == 1 + BitLength(e);
    assert BitLength(e) == 1 + BitLength(f);
  }

  lemma {:induction false} BitLengthBelow128(v: nat)
    requires v < 128
    ensures BitLength(v) <= 7
  {
    var a, b, c := v / 2, v / 4, v / 8;
    var d, e, f := v / 16, v / 32, v / 64;
    assert a / 2 == b && b / 2 == c && c / 2 == d && d / 2 == e && e / 2 == f && f / 2 == 0;
    assert BitLength(v) <= 1 + BitLength(a);
    assert BitLength(a) <= 1 + BitLength(b);
    assert BitLength(b) <= 1 + BitLength(c);
    assert BitLength(c) <= 1 + BitLength(d);
    assert BitLength(d) <= 1 + BitLength(e);
    assert BitLength(e) <= 1 + BitLength(f);
  }

  lemma {:induction false} EncodingLength(v: nat)
    ensures |Encoding(v)| == Length(v)
  {
    if v <= 127 {
      BitLengthBelow128(v);
    } else {
      EncodingLength(v / 128);
      BitLengthShift7(v);
    }
  }

  lemma {:induction false} LeadingZerosMsb(v: nat, n: nat)
    requires v < Pow2(n)
    ensures n - LeadingZeros(v, n) == BitLength(v)
  {
    if n == 0 {
    } else if v < Pow2(n - 1) {
      LeadingZerosMsb(v, n - 1);
    } else {
      BitLengthTop(v, n);
    }
  }

  lemma {:induction false} BitLengthTop(v: nat, n: nat)
    requires n >= 1 && Pow2(n - 1) <= v < Pow2(n)
    ensures BitLength(v) == n
  {
    if n > 1 {
      BitLengthTop(v / 2, n - 1);
    }
  }

  /** An encoding of k bytes covers exactly the values from 128^(k-1) up to 128^k. */
  lemma {:induction false} LengthRange(v: nat, k: nat)
    requires k >= 1
    ensures Length(v) <= k <==> v < Pow128(k)
    decreases k
  {
    if v <= 127 {
      BitLengthBelow128(v);
      Pow128AtLeast(k);
    } else {
      BitLengthShift7(v);
      assert Length(v) == 1 + Length(v / 128) by {
        EncodingLength(v);
        EncodingLength(v / 128);
      }
      if k == 1 {
        EncodingLength(v / 128);
        assert Pow128(1) == 128;
      } else {
        LengthRange(v / 128, k - 1);
      }
    }
  }

  // Decode after encode.

  lemma MulAtLeast(x: int, d: nat)
    requires x >= 1
    ensures x * d >= d
  {
  }

  lemma DivisionUnique(v: int, d: nat, t: int, r: nat)
    requires d >= 1 && v == t * d + r && r < d
    ensures v % d == r && v / d == t
  {
    var u, q := v / d, v % d;
    assert v == u * d + q;
    assert (t - u) * d == q - r;
    if t - u >= 1 {
      MulAtLeast(t - u, d);
    } else if u - t >= 1 {
      MulAtLeast(u - t, d);
    } else {
      assert t - u == 0;
    }
  }

  /** One step of v modulo a power of 128, digit by digit. */
  lemma ModStep(v: nat, n: nat)
    requires n >= 1
    ensures v % Pow128(n) == v % 128 + 128 * (v / 128 % Pow128(n - 1))
    ensures v <= 127 ==> v % Pow128(n) == v
  {
    var p, q := Pow128(n - 1), v / 128;
    var t, m := q / p, q % p;
    assert q == t * p + m;
    assert v == 128 * (t * p) + (v % 128 + 128 * m);
    assert 128 * (t * p) == t * Pow128(n);
    DivisionUnique(v, Pow128(n), t, v % 128 + 128 * m);
    if v <= 127 {
      Pow128AtLeast(n);
      DivisionUnique(v, Pow128(n), 0, v);
    }
  }

  /** The low `k` digits of `v`. */
  function Low(v: nat, k: nat): nat {
    v % Pow128(k)
  }

  lemma LowStep(v: nat, k: nat)
    requires k >= 1
    ensures Low(v, k) == (128 + v % 128) % 128 + 128 * Low(v / 128, k - 1)
    ensures k == 1 ==> Low(v / 128, k - 1) == 0
  {
    ModStep(v, k);
    DivisionUnique(128 + v % 128, 128, 1, v % 128);
    if k == 1 {
      DivisionUnique(v / 128, 1, v / 128, 0);
    }
  }

  lemma DecodeMore(b: Bytes, n: nat, s: nat, v: nat)
    requires n > 0 && |b| > 0 && b[0] >= 128 && DecodeWithin(b[1..], n - 1) == Ok((s, v))
    ensures DecodeWithin(b, n) == Ok((s + 1, b[0] % 128 + 128 * v))
  {
  }

  lemma EncodingFront(v: nat, tail: Bytes)
    requires v > 127
    ensures var e := Encoding(v) + tail;
            && |Encoding(v)| == |Encoding(v / 128)| + 1
            && e[0] == 128 + v % 128 && e[1..] == Encoding(v / 128) + tail
  {
    EncodingMore(v);
    hide Encoding;
    PushFront(128 + v % 128, Encoding(v / 128), tail);
  }

  lemma EncodingMore(v: nat)
    requires v > 127
    ensures Encoding(v) == [128 + v % 128] + Encoding(v / 128)
  {
  }

  lemma PushFront(b: Byte, rest: Bytes, tail: Bytes)
    ensures ([b] + rest + tail)[0] == b && ([b] + rest + tail)[1..] == rest + tail
  {
  }

  lemma OneDigit(v: nat, tail: Bytes, n: nat)
    requires v <= 127 && n > 0
    ensures |Encoding(v)| == 1 && DecodeWithin(Encoding(v) + tail, n) == Ok((1, Low(v, n)))
  {
    ModStep(v, n);
  }

  lemma {:induction false} DecodeLow(v: nat, tail: Bytes, n: nat)
    ensures DecodeWithin(Encoding(v) + tail, n) == Ok((Min(n, |Encoding(v)|), Low(v, n)))
    decreases n
  {
    if n == 0 {
      DivisionUnique(v, 1, v, 0);
    } else if v <= 127 {
      OneDigit(v, tail, n);
    } else {
      hide DecodeWithin, Encoding, Low, Pow128;
      EncodingFront(v, tail);
      LowStep(v, n);
      DecodeLow(v / 128, tail, n - 1);
      DecodeMore(Encoding(v) + tail, n, Min(n - 1, |Encoding(v / 128)|), Low(v / 128, n - 1));
    }
  }

  lemma DecodeEncoding(v: nat, tail: Bytes, n: nat)
    ensures DecodeWithin(Encoding(v) + tail, n) == Ok((Min(n, |Encoding(v)|), v % Pow128(n)))
  {
    hide DecodeWithin, Encoding, Pow128;
    DecodeLow(v, tail, n);
  }

  /** The exact law: decoding gives back the value modulo 2^56 after at most eight bytes. */
  lemma ExactLaw(v: U64, tail: Bytes)
    ensures |Encoding(v)| == Length(v) <= 10
    ensures Decode(Encoding(v) + tail) == Ok((Min(8, Length(v)), v % LIMIT))
    ensures Decode(Encoding(v) + tail) == Ok((Length(v), v)) <==> v < LIMIT
  {
    hide Encoding, Length, DecodeWithin;
    EncodingLength(v);
    DecodeEncoding(v, tail, 8);
    Pow128Limit();
    LengthRange(v, 8);
    LengthRange(v, 10);
    assert Pow128(10) == 128 * 128 * Pow128(8);
    hide Pow128;
    SmallMod(v, LIMIT);
  }

  lemma SmallMod(v: nat, d: nat)
    requires d > 0
    ensures v % d == v <==> v < d
  {
  }

  lemma RoundTrip(v: nat, tail: Bytes)
    requires v < LIMIT
    ensures Decode(Encoding(v) + tail) == Ok((|Encoding(v)|, v))
  {
    ExactLaw(v, tail);
  }

  // Decoding depends on nothing past the bytes it consumes.

  lemma {:induction false} DecodeWithinStable(a: Bytes, b: Bytes, n: nat)
    requires DecodeWithin(a, n).Ok?
    requires DecodeWithin(a, n).value.0 <= |b|
    requires a[..DecodeWithin(a, n).value.0] == b[..DecodeWithin(a, n).value.0]
    ensures DecodeWithin(b, n) == DecodeWithin(a, n)
    decreases n
  {
    if n > 0 {
      var s := DecodeWithin(a, n).value.0;
      assert a[0] == a[..s][0] == b[..s][0] == b[0];
      if a[0] >= 128 {
        assert a[1..][..s - 1] == a[..s][1..] == b[..s][1..] == b[1..][..s - 1];
        DecodeWithinStable(a[1..], b[1..], n - 1);
      }
    }
  }

  lemma DecodeStable(a: Bytes, b: Bytes)
    requires Decode(a).Ok?
    requires Decode(a).value.0 <= |b|
    requires a[..Decode(a).value.0] == b[..Decode(a).value.0]
    ensures Decode(b) == Decode(a)
  {
    DecodeWithinStable(a, b, 8);
  }

  lemma DecodeExtend(a: Bytes, tail: Bytes)
    requires Decode(a).Ok?
    ensures Decode(a + tail) == Decode(a)
  {
    assert (a + tail)[..Decode(a).value.0] == a[..Decode(a).value.0];
    DecodeStable(a, a + tail);
  }

  lemma ZeroByte(b: Bytes, n: nat)
    requires n > 0 && |b| > 0 && b[0] == 0
    ensures DecodeWithin(b, n) == Ok((1, 0))
  {
  }

  lemma CutFront(v: nat, k: nat, zeros: Bytes)
    requires 0 < k < |Encoding(v)|
    ensures var b := Encoding(v)[..k] + zeros;
            && v > 127 && |b| > 0 && b[0] == 128 + v % 128
            && k - 1 < |Encoding(v / 128)| && b[1..] == Encoding(v / 128)[..k - 1] + zeros
  {
  }

  lemma {:induction false} CutPrefixDecodes(v: nat, k: nat, zeros: Bytes, n: nat)
    requires 0 < k < |Encoding(v)| && k < n
    requires |zeros| > 0 && zeros[0] == 0
    ensures DecodeWithin(Encoding(v)[..k] + zeros, n) == Ok((k + 1, Low(v, k)))
    decreases n
  {
    CutFront(v, k, zeros);
    LowStep(v, k);
    hide DecodeWithin, Encoding, Low, Pow128;
    var b := Encoding(v)[..k] + zeros;
    if k == 1 {
      assert b[1..] == zeros;
      ZeroByte(zeros, n - 1);
    } else {
      CutPrefixDecodes(v / 128, k - 1, zeros, n - 1);
    }
    DecodeMore(b, n, k, Low(v / 128, k - 1));
  }

  /** A canonical prefix cut short and completed by a zero byte is always misread, as a smaller value. */
  lemma CutPrefixMisread(v: nat, k: nat, zeros: Bytes, n: nat)
    requires 0 < k < |Encoding(v)| && k < n
    requires |zeros| > 0 && zeros[0] == 0
    ensures DecodeWithin(Encoding(v)[..k] + zeros, n) == Ok((k + 1, v % Pow128(k)))
    ensures v % Pow128(k) < v
  {
    hide DecodeWithin, Encoding, Pow128, Length;
    CutPrefixDecodes(v, k, zeros, n);
    EncodingLength(v);
    LengthRange(v, k);
  }

  lemma PushDigit(done: Bytes, v: nat)
    requires v > 127
    ensures done + Encoding(v) == done + [128 + v % 128] + Encoding(v / 128)
  {
  }

  lemma OverPush(was: Bytes, lo: nat, done: Bytes, b: Byte)
    requires lo + |done| < |was|
    ensures Over(was, lo, done)[lo + |done| := b] == Over(was, lo, done + [b])
  {
  }

  /** `encode` into `buf[lo..]`; the loop is the same for every value, also past 64 bits. */
  method Encode(value: nat, buf: array<Byte>, lo: nat) returns (r: Result<nat>)
    requires lo <= buf.Length
    modifies buf
    ensures r.Ok? <==> lo + Length(value) <= buf.Length
    ensures r.Err? ==> r.error == VarintDstInsufficient && buf[..] == old(buf[..])
    ensures r.Ok? ==> r.value == Length(value) == |Encoding(value)|
    ensures r.Ok? ==> buf[..] == Over(old(buf[..]), lo, Encoding(value))
  {
    var len := Length(value);
    EncodingLength(value);
    if buf.Length - lo < len {
      return Err(VarintDstInsufficient);
    }
    var offset, v := 0, value;
    ghost var was: Bytes := buf[..];
    ghost var done: Bytes := [];
    assert buf[..] == Over(was, lo, done);
    while v > 127
      invariant 0 <= v && offset == |done|
      invariant done + Encoding(v) == Encoding(value)
      invariant buf[..] == Over(was, lo, done)
      decreases v
    {
      buf[lo + offset] := 128 + v % 128;
      OverPush(was, lo, done, 128 + v % 128);
      PushDigit(done, v);
      done := done + [128 + v % 128];
      offset, v := offset + 1, v / 128;
    }
    buf[lo + offset] := v;
    OverPush(was, lo, done, v);
    return Ok(len);
  }

  /** The running value of the decoding loop after the bytes `s`. */
  function Partial(s: Bytes): nat {
    if s == [] then 0 else s[0] % 128 + 128 * Partial(s[1..])
  }

  lemma {:induction false} PartialAppend(s: Bytes, b: Byte)
    ensures Partial(s + [b]) == Partial(s) + Pow128(|s|) * (b % 128)
  {
    if s == [] {
      assert s + [b] == [b];
    } else {
      assert (s + [b])[1..] == s[1..] + [b];
      PartialAppend(s[1..], b);
      assert 128 * (Pow128(|s| - 1) * (b % 128)) == Pow128(|s|) * (b % 128);
    }
  }

  lemma {:induction false} PartialBelow(s: Bytes)
    ensures Partial(s) < Pow128(|s|)
  {
    if s != [] {
      PartialBelow(s[1..]);
    }
  }

  lemma {:induction false} DecodeIsPartial(buf: Bytes, k: nat, n: nat)
    requires k <= n && k <= |buf|
    requires forall i | 0 <= i < k :: buf[i] >= 128
    ensures k == n ==> DecodeWithin(buf, n) == Ok((k, Partial(buf[..k])))
    ensures k < n && k == |buf| ==> DecodeWithin(buf, n) == Err(VarintSrcInsufficient)
    ensures k < n && k < |buf| && buf[k] < 128 ==>
              DecodeWithin(buf, n) == Ok((k + 1, Partial(buf[..k + 1])))
    decreases k
  {
    if k > 0 {
      DecodeIsPartial(buf[1..], k - 1, n - 1);
      assert buf[..k][1..] == buf[1..][..k - 1];
      if k < |buf| {
        assert buf[..k + 1][1..] == buf[1..][..k];
      }
    } else if k < n && k < |buf| && buf[k] < 128 {
      assert buf[..1][1..] == [];
    }
  }

  /** `decode`: the loop over at most eight bytes, with the running multiplier kept in 64 bits. */
  method DecodeLoop(buf: Bytes) returns (r: Result<(nat, U64)>)
    ensures r == Decode(buf)
  {
    var value: U64 := 0;
    var m: U64 := 1;
    var offset := 0;
    Pow128Limit();
    for i := 0 to 8
      invariant offset == i <= |buf|
      invariant forall j | 0 <= j < i :: buf[j] >= 128
      invariant value == Partial(buf[..i]) && m == Pow128(i)
    {
      if offset >= |buf| {
        DecodeIsPartial(buf, i, 8);
        return Err(VarintSrcInsufficient);
      }
      var byte := buf[offset];
      assert buf[..i + 1] == buf[..i] + [byte];
      PartialAppend(buf[..i], byte);
      PartialBelow(buf[..i + 1]);
      Pow128Grows(i + 1, 8);
      offset := offset + 1;
      value := value + m * (byte % 128);
      m := m * 128;
      if byte < 128 {
        DecodeIsPartial(buf, i, 8);
        return Ok((offset, value));
      }
    }
    DecodeIsPartial(buf, 8, 8);
    return Ok((offset, value));
  }
}
