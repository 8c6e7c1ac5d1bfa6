/** Bytes, fixed-size identifiers and the error values shared by every component. */
module Wire {

  type Byte = x: int | 0 <= x < 256

  type Bytes = seq<Byte>

  /** `u64`; Rust's integer operations never leave this range without failing. */
  type U64 = x: int | 0 <= x < 0x1_0000_0000_0000_0000

  type U8 = x: int | 0 <= x < 256

  /** `[u8; 32]`: post hashes and public keys. */
  type Hash = h: Bytes | |h| == 32 witness seq(32, _ => 0)

  /** `[u8; 64]`: signatures and secret keys. */
  type Bytes64 = h: Bytes | |h| == 64 witness seq(64, _ => 0)

  /** `[u8; 4]`: request and circuit identifiers. */
  type Id = h: Bytes | |h| == 4 witness [0, 0, 0, 0]

  /** A Rust `String`: bytes that the codecs check with `Utf8.Valid`. */
  type Text = Bytes

  datatype Option<+T> = None | Some(value: T)

  /** `Panic` stands for every slice out of range and every arithmetic overflow of the source. */
  datatype Error =
    | SrcInsufficient
    | VarintSrcInsufficient
    | VarintDstInsufficient
    | DstTooSmall
    | MessageEmpty
    | HashListEnd
    | UnrecognizedType
    | InvalidUtf8
    | ChannelLength
    | TextLength
    | TopicLength
    | NameLength
    | UnexpectedEndVarint
    | UnexpectedEndMessage
    | UnexpectedEof
    | Decrypt
    | NonceExhausted
    | NonTermination
    | Panic

  datatype Result<+T> = Ok(value: T) | Err(error: Error) {
    predicate IsFailure() { Err? }

    function PropagateFailure<U>(): Result<U>
      requires Err?
    {
      Err(error)
    }

    function Extract(): T
      requires Ok?
    {
      value
    }
  }

  function Min(a: int, b: int): int {
    if a <= b then a else b
  }

  function Max(a: int, b: int): int {
    if a <= b then b else a
  }

  function Concat(parts: seq<Bytes>): Bytes {
    if parts == [] then [] else parts[0] + Concat(parts[1..])
  }

  lemma {:induction false} ConcatAppend(a: seq<Bytes>, b: seq<Bytes>)
    ensures Concat(a + b) == Concat(a) + Concat(b)
  {
    if a == [] {
      assert a + b == b;
    } else {
      ConcatAppend(a[1..], b);
      assert (a + b)[0] == a[0] && (a + b)[1..] == a[1..] + b;
    }
  }

  /** The list that a reading loop with accumulator `acc` returns when the rest reads as `r`. */
  function Prepend<T>(acc: seq<T>, r: Result<(nat, seq<T>)>): Result<(nat, seq<T>)> {
    if r.Ok? then Ok((r.value.0, acc + r.value.1)) else r
  }

  lemma PrependNil<T>(r: Result<(nat, seq<T>)>)
    ensures Prepend([], r) == r
  {
    if r.Ok? {
      assert [] + r.value.1 == r.value.1;
    }
  }

  lemma PrependPush<T>(acc: seq<T>, x: T, r: Result<(nat, seq<T>)>)
    ensures Prepend(acc, Prepend([x], r)) == Prepend(acc + [x], r)
  {
    if r.Ok? {
      assert acc + ([x] + r.value.1) == acc + [x] + r.value.1;
    }
  }

  lemma PrependEnd<T>(acc: seq<T>, o: nat)
    ensures Prepend(acc, Ok((o, []))) == Ok((o, acc))
  {
    assert acc + [] == acc;
  }

  lemma PrependFirst<T>(all: seq<T>, o: nat)
    requires all != []
    ensures Prepend([all[0]], Ok((o, all[1..]))) == Ok((o, all))
  {
    assert [all[0]] + all[1..] == all;
  }

  /** `s` stands in `buf` at offset `off`. */
  ghost predicate At(buf: Bytes, off: nat, s: Bytes) {
    off + |s| <= |buf| && forall i | 0 <= i < |s| :: buf[off + i] == s[i]
  }

  lemma AtSplit(buf: Bytes, off: nat, a: Bytes, b: Bytes)
    ensures At(buf, off, a + b) <==> At(buf, off, a) && At(buf, off + |a|, b)
  {
    var s := a + b;
    if At(buf, off, s) {
      assert forall i | 0 <= i < |a| :: a[i] == s[i];
      forall i | 0 <= i < |b| ensures buf[off + |a| + i] == b[i] {
        assert s[|a| + i] == b[i];
      }
    }
    if At(buf, off, a) && At(buf, off + |a|, b) {
      forall i | 0 <= i < |s| ensures buf[off + i] == s[i] {
        if i >= |a| {
          assert s[i] == b[i - |a|] && buf[off + |a| + (i - |a|)] == b[i - |a|];
        }
      }
    }
  }

  lemma AtSlice(buf: Bytes, off: nat, s: Bytes)
    ensures At(buf, off, s) <==> off + |s| <= |buf| && buf[off..off + |s|] == s
  {
    if off + |s| <= |buf| {
      var w := buf[off..off + |s|];
      assert forall i | 0 <= i < |s| :: w[i] == buf[off + i];
    }
  }

  /** `was` with `done` written over it at `lo`. */
  ghost function Over(was: Bytes, lo: nat, done: Bytes): Bytes
    requires lo + |done| <= |was|
  {
    was[..lo] + done + was[lo + |done|..]
  }

  lemma OverNothing(was: Bytes, lo: nat)
    requires lo <= |was|
    ensures Over(was, lo, []) == was
  {
  }

  lemma OverAll(was: Bytes, s: Bytes)
    requires |s| == |was|
    ensures Over(was, 0, s) == s
  {
  }

  lemma OverOver(was: Bytes, lo: nat, a: Bytes, b: Bytes)
    requires lo + |a| + |b| <= |was|
    ensures Over(Over(was, lo, a), lo + |a|, b) == Over(was, lo, a + b)
  {
  }
}
