/**
 * The generic codecs of `desert`: tuples, arrays and vectors over any element codec, big-endian or default
 * variant (desert/src/lib.rs). A type is described by a value of `Ty`, to any depth of nesting.
 */
module Desert {
  import opened Wire
  import Varint
  import Cursor

  /** What a type brings to the generic codecs; `fits` says which values it promises to carry. */
  datatype Codec<!A> = Codec(
    fits: A -> bool,
    count: A -> nat,
    encode: A -> Bytes,
    decode: Bytes -> Result<(nat, A)>,
    countFrom: Bytes -> Result<nat>)

  datatype Ty<!A> =
    | Leaf(codec: Codec<A>)
    | Tuple(first: Ty<A>, second: Ty<A>)
    | Array(item: Ty<A>, n: nat)
    | Vec(item: Ty<A>)

  datatype Value<A> =
    | Atom(atom: A)
    | Both(fst: Value<A>, snd: Value<A>)
    | Many(items: seq<Value<A>>)

  // count_bytes

  predicate HasType<A>(t: Ty<A>, v: Value<A>)
    decreases t, 0
  {
    match t
    case Leaf(_) => v.Atom?
    case Tuple(a, b) => v.Both? && HasType(a, v.fst) && HasType(b, v.snd)
    case Array(item, n) => v.Many? && |v.items| == n && HaveType(item, v.items)
    case Vec(item) => v.Many? && HaveType(item, v.items)
  }

  predicate HaveType<A>(t: Ty<A>, vs: seq<Value<A>>)
    decreases t, 1, |vs|
  {
    vs == [] || (HasType(t, vs[0]) && HaveType(t, vs[1..]))
  }

  function Count<A>(t: Ty<A>, v: Value<A>): nat
    requires HasType(t, v)
    decreases t, 0
  {
    match t
    case Leaf(c) => c.count(v.atom)
    case Tuple(a, b) => Count(a, v.fst) + Count(b, v.snd)
    case Array(item, _) => CountAll(item, v.items)
    case Vec(item) => var len := CountAll(item, v.items); len + Varint.Length(len)
  }

  function CountAll<A>(t: Ty<A>, vs: seq<Value<A>>): nat
    requires HaveType(t, vs)
    decreases t, 1, |vs|
  {
    if vs == [] then 0 else Count(t, vs[0]) + CountAll(t, vs[1..])
  }

  // The bytes written.

  function Encode<A>(t: Ty<A>, v: Value<A>): Bytes
    requires HasType(t, v)
    decreases t, 0
  {
    match t
    case Leaf(c) => c.encode(v.atom)
    case Tuple(a, b) => Encode(a, v.fst) + Encode(b, v.snd)
    case Array(item, _) => EncodeAll(item, v.items)
    case Vec(item) => Varint.Encoding(CountAll(item, v.items)) + EncodeAll(item, v.items)
  }

  function EncodeAll<A>(t: Ty<A>, vs: seq<Value<A>>): Bytes
    requires HaveType(t, vs)
    decreases t, 1, |vs|
  {
    if vs == [] then [] else Encode(t, vs[0]) + EncodeAll(t, vs[1..])
  }

  // from_bytes

  function Decode<A>(t: Ty<A>, src: Bytes): Result<(nat, Value<A>)>
    decreases t, 0
  {
    match t
    case Leaf(c) =>
      var (n, a) :- c.decode(src);
      Ok((n, Atom(a)))
    case Tuple(a, b) =>
      var (n, x) :- Decode(a, src);
      if n > |src| then Err(Panic)
      else
        var (m, y) :- Decode(b, src[n..]);
        Ok((n + m, Both(x, y)))
    case Array(item, n) =>
      var (o, vs) :- DecodeMany(item, n, src, 0);
      Ok((o, Many(vs)))
    case Vec(item) =>
      var (o, len) :- Varint.Decode(src);
      var (_, vs) :- DecodeUntil(item, o + len, src, o);
      Ok((o + len, Many(vs)))
  }

  /** The loop over `n` items; the number returned is the offset reached. */
  function DecodeMany<A>(t: Ty<A>, n: nat, src: Bytes, o: nat): Result<(nat, seq<Value<A>>)>
    decreases t, 1, n
  {
    if n == 0 then Ok((o, []))
    else if o > |src| then Err(Panic)
    else
      var (size, x) :- Decode(t, src[o..]);
      Prepend([x], DecodeMany(t, n - 1, src, o + size))
  }

  /** The loop until `end`, which the last item may overshoot; an item of no size repeats for ever. */
  function DecodeUntil<A>(t: Ty<A>, end: nat, src: Bytes, o: nat): Result<(nat, seq<Value<A>>)>
    decreases t, 1, if o < end then end - o else 0
  {
    if o >= end then Ok((o, []))
    else if o > |src| then Err(Panic)
    else
      var (size, x) :- Decode(t, src[o..]);
      if size == 0 then Err(NonTermination) else Prepend([x], DecodeUntil(t, end, src, o + size))
  }

  // count_from_bytes

  function CountFrom<A>(t: Ty<A>, src: Bytes): Result<nat>
    decreases t, 0
  {
    match t
    case Leaf(c) => c.countFrom(src)
    case Tuple(a, b) =>
      var n :- CountFrom(a, src);
      if n > |src| then Err(Panic)
      else
        var m :- CountFrom(b, src[n..]);
        Ok(n + m)
    case Array(item, n) => CountMany(item, n, src, 0)
    case Vec(item) =>
      var (o, len) :- Varint.Decode(src);
      CountUntil(item, o + len, src, o)
  }

  function CountMany<A>(t: Ty<A>, n: nat, src: Bytes, o: nat): Result<nat>
    decreases t, 1, n
  {
    if n == 0 then Ok(o)
    else if o > |src| then Err(Panic)
    else
      var size :- CountFrom(t, src[o..]);
      CountMany(t, n - 1, src, o + size)
  }

  function CountUntil<A>(t: Ty<A>, end: nat, src: Bytes, o: nat): Result<nat>
    decreases t, 1, if o < end then end - o else 0
  {
    if o >= end then Ok(o)
    else if o > |src| then Err(Panic)
    else
      var size :- CountFrom(t, src[o..]);
      if size == 0 then Err(NonTermination) else CountUntil(t, end, src, o + size)
  }

  // The laws.

  /** Count equals encoded length, which is positive, and decoding undoes encoding before any tail. */
  ghost predicate LawfulCodec<A(!new)>(c: Codec<A>) {
    forall a | c.fits(a) :: LawfulAt(c, a)
  }

  ghost predicate LawfulAt<A(!new)>(c: Codec<A>, a: A) {
    && |c.encode(a)| == c.count(a) > 0
    && forall tail ::
         && c.decode(c.encode(a) + tail) == Ok((c.count(a), a))
         && c.countFrom(c.encode(a) + tail) == Ok(c.count(a))
  }

  predicate Positive<A>(t: Ty<A>) {
    match t
    case Leaf(_) => true
    case Tuple(a, b) => Positive(a) || Positive(b)
    case Array(item, n) => n > 0 && Positive(item)
    case Vec(_) => true
  }

  /** Lawful leaves, and vectors of items that take some room. */
  ghost predicate Lawful<A(!new)>(t: Ty<A>) {
    match t
    case Leaf(c) => LawfulCodec(c)
    case Tuple(a, b) => Lawful(a) && Lawful(b)
    case Array(item, _) => Lawful(item)
    case Vec(item) => Lawful(item) && Positive(item)
  }

  /** Values the leaves carry, with every vector's items together below 2^56 bytes. */
  ghost predicate Fits<A>(t: Ty<A>, v: Value<A>)
    requires HasType(t, v)
    decreases t, 0
  {
    match t
    case Leaf(c) => c.fits(v.atom)
    case Tuple(a, b) => Fits(a, v.fst) && Fits(b, v.snd)
    case Array(item, _) => FitAll(item, v.items)
    case Vec(item) => FitAll(item, v.items) && CountAll(item, v.items) < Varint.LIMIT
  }

  ghost predicate FitAll<A>(t: Ty<A>, vs: seq<Value<A>>)
    requires HaveType(t, vs)
    decreases t, 1, |vs|
  {
    vs == [] || (Fits(t, vs[0]) && FitAll(t, vs[1..]))
  }

  lemma {:induction false} CountExact<A(!new)>(t: Ty<A>, v: Value<A>)
    requires Lawful(t) && HasType(t, v) && Fits(t, v)
    ensures |Encode(t, v)| == Count(t, v) && (Positive(t) ==> Count(t, v) > 0)
    decreases t, 0
  {
    match t
    case Leaf(c) => assert LawfulAt(c, v.atom);
    case Tuple(a, b) =>
      CountExact(a, v.fst);
      CountExact(b, v.snd);
    case Array(item, n) => CountAllExact(item, v.items);
    case Vec(item) =>
      CountAllExact(item, v.items);
      Varint.EncodingLength(CountAll(item, v.items));
  }

  lemma {:induction false} CountAllExact<A(!new)>(t: Ty<A>, vs: seq<Value<A>>)
    requires Lawful(t) && HaveType(t, vs) && FitAll(t, vs)
    ensures |EncodeAll(t, vs)| == CountAll(t, vs) && (Positive(t) && vs != [] ==> CountAll(t, vs) > 0)
    decreases t, 1, |vs|
  {
    if vs != [] {
      CountExact(t, vs[0]);
      CountAllExact(t, vs[1..]);
    }
  }

  /** Items stand one behind the other, in their order. */
  lemma {:induction false} ItemsInOrder<A>(t: Ty<A>, a: seq<Value<A>>, b: seq<Value<A>>)
    requires HaveType(t, a) && HaveType(t, b)
    ensures HaveType(t, a + b) && EncodeAll(t, a + b) == EncodeAll(t, a) + EncodeAll(t, b)
    decreases |a|
  {
    hide Encode, HasType, EncodeAll, HaveType;
    if a == [] {
      assert a + b == b;
      NoItems(t, b);
    } else {
      var x, rest := a[0], a[1..];
      ItemsTyped(t, a);
      ItemsInOrder(t, rest, b);
      ItemFirst(t, x, rest);
      ItemFirst(t, x, rest + b);
      FrontApart(a, b);
      assert Encode(t, x) + (EncodeAll(t, rest) + EncodeAll(t, b))
          == Encode(t, x) + EncodeAll(t, rest) + EncodeAll(t, b);
    }
  }

  lemma NoItems<A>(t: Ty<A>, b: seq<Value<A>>)
    requires HaveType(t, b)
    ensures EncodeAll(t, b) == EncodeAll(t, []) + EncodeAll(t, b)
  {
    var none: seq<Value<A>> := [];
    assert EncodeAll(t, none) == [];
  }

  lemma ItemsTyped<A>(t: Ty<A>, a: seq<Value<A>>)
    requires HaveType(t, a) && a != []
    ensures HasType(t, a[0]) && HaveType(t, a[1..])
  {
    hide HasType;
  }

  lemma FrontApart<T>(a: seq<T>, b: seq<T>)
    requires a != []
    ensures a == [a[0]] + a[1..] && a + b == [a[0]] + (a[1..] + b)
  {
  }

  lemma ItemFirst<A>(t: Ty<A>, x: Value<A>, rest: seq<Value<A>>)
    requires HasType(t, x) && HaveType(t, rest)
    ensures HaveType(t, [x] + rest) && EncodeAll(t, [x] + rest) == Encode(t, x) + EncodeAll(t, rest)
  {
    hide Encode, HasType;
    assert ([x] + rest)[1..] == rest;
  }

  /** The first part of a pair stands in front. */
  lemma TupleInOrder<A(!new)>(a: Ty<A>, b: Ty<A>, x: Value<A>, y: Value<A>)
    requires Lawful(a) && HasType(a, x) && HasType(b, y) && Fits(a, x)
    ensures var s := Encode(Tuple(a, b), Both(x, y));
            && Count(a, x) <= |s| && s[..Count(a, x)] == Encode(a, x) && s[Count(a, x)..] == Encode(b, y)
  {
    CountExact(a, x);
  }

  /** A vector is the number of bytes of its items, and its items. */
  lemma VecInOrder<A(!new)>(item: Ty<A>, vs: seq<Value<A>>)
    requires Lawful(item) && HaveType(item, vs) && FitAll(item, vs)
    ensures var s, k := Encode(Vec(item), Many(vs)), Varint.Length(CountAll(item, vs));
            && k <= |s| && Varint.IsVarint(s[..k], |s| - k) && s[k..] == EncodeAll(item, vs)
  {
    hide Varint.Length, Varint.IsVarint, Varint.Encoding, EncodeAll, CountAll;
    var len := CountAll(item, vs);
    CountAllExact(item, vs);
    Varint.EncodingLength(len);
    Varint.EncodingDigits(len);
    var s := Encode(Vec(item), Many(vs));
    assert s[..|Varint.Encoding(len)|] == Varint.Encoding(len);
  }

  /** At every depth of nesting, decoding undoes encoding and both counts are the encoded length. */
  lemma {:induction false} RoundTrip<A(!new)>(t: Ty<A>, v: Value<A>, tail: Bytes)
    requires Lawful(t) && HasType(t, v) && Fits(t, v)
    ensures |Encode(t, v)| == Count(t, v)
    ensures Decode(t, Encode(t, v) + tail) == Ok((Count(t, v), v))
    ensures CountFrom(t, Encode(t, v) + tail) == Ok(Count(t, v))
    decreases t, 0
  {
    hide DecodeMany, DecodeUntil, CountMany, CountUntil, EncodeAll, CountAll, FitAll, HaveType, Varint.Decode;
    hide Varint.Encoding, Varint.Length;
    CountExact(t, v);
    var src := Encode(t, v) + tail;
    match t
    case Leaf(c) => assert LawfulAt(c, v.atom);
    case Tuple(a, b) =>
      CountExact(a, v.fst);
      RoundTrip(a, v.fst, Encode(b, v.snd) + tail);
      RoundTrip(b, v.snd, tail);
      assert src == Encode(a, v.fst) + (Encode(b, v.snd) + tail);
      assert src[Count(a, v.fst)..] == Encode(b, v.snd) + tail;
    case Array(item, n) =>
      ManyRoundTrip(item, v.items, src, 0, tail);
      CountAllExact(item, v.items);
    case Vec(item) =>
      var len := CountAll(item, v.items);
      var head := Varint.Encoding(len);
      CountAllExact(item, v.items);
      Varint.RoundTrip(len, EncodeAll(item, v.items) + tail);
      assert src == head + (EncodeAll(item, v.items) + tail);
      UntilRoundTrip(item, v.items, src, |head|, tail);
  }

  lemma Cut(src: Bytes, o: nat, a: Bytes, b: Bytes, tail: Bytes)
    requires o <= |src| && src[o..] == a + b + tail
    ensures src[o..] == a + (b + tail) && o + |a| <= |src| && src[o + |a|..] == b + tail
  {
    assert src[o + |a|..] == src[o..][|a|..];
  }

  lemma {:induction false} ManyRoundTrip<A(!new)>(t: Ty<A>, vs: seq<Value<A>>, src: Bytes, o: nat, tail: Bytes)
    requires Lawful(t) && HaveType(t, vs) && FitAll(t, vs)
    requires o <= |src| && src[o..] == EncodeAll(t, vs) + tail
    ensures DecodeMany(t, |vs|, src, o) == Ok((o + CountAll(t, vs), vs))
    ensures CountMany(t, |vs|, src, o) == Ok(o + CountAll(t, vs))
    decreases t, 1, |vs|
  {
    hide Decode, CountFrom, Encode, Count, Lawful, Fits, HasType;
    if vs != [] {
      var rest, n := vs[1..], Count(t, vs[0]);
      RoundTrip(t, vs[0], EncodeAll(t, rest) + tail);
      Cut(src, o, Encode(t, vs[0]), EncodeAll(t, rest), tail);
      ManyRoundTrip(t, rest, src, o + n, tail);
      PrependFirst(vs, o + CountAll(t, vs));
    }
  }

  lemma UntilStep<A>(t: Ty<A>, end: nat, src: Bytes, o: nat, size: nat, x: Value<A>)
    requires o < end && o <= |src| && size > 0
    requires Decode(t, src[o..]) == Ok((size, x)) && CountFrom(t, src[o..]) == Ok(size)
    ensures DecodeUntil(t, end, src, o) == Prepend([x], DecodeUntil(t, end, src, o + size))
    ensures CountUntil(t, end, src, o) == CountUntil(t, end, src, o + size)
  {
    hide Decode, CountFrom;
  }

  lemma UntilEnd<A>(t: Ty<A>, end: nat, src: Bytes, o: nat)
    requires end <= o
    ensures DecodeUntil(t, end, src, o) == Ok((o, [])) && CountUntil(t, end, src, o) == Ok(o)
  {
  }

  lemma {:induction false} UntilRoundTrip<A(!new)>(t: Ty<A>, vs: seq<Value<A>>, src: Bytes, o: nat, tail: Bytes)
    requires Lawful(t) && Positive(t) && HaveType(t, vs) && FitAll(t, vs)
    requires o <= |src| && src[o..] == EncodeAll(t, vs) + tail
    ensures DecodeUntil(t, o + CountAll(t, vs), src, o) == Ok((o + CountAll(t, vs), vs))
    ensures CountUntil(t, o + CountAll(t, vs), src, o) == Ok(o + CountAll(t, vs))
    decreases t, 1, |vs|
  {
    hide Decode, CountFrom, Encode, Count, Lawful, Fits, HasType, Positive, DecodeUntil, CountUntil, Prepend;
    if vs == [] {
      UntilEnd(t, o, src, o);
    } else {
      var rest, n, end := vs[1..], Count(t, vs[0]), o + CountAll(t, vs);
      CountExact(t, vs[0]);
      RoundTrip(t, vs[0], EncodeAll(t, rest) + tail);
      Cut(src, o, Encode(t, vs[0]), EncodeAll(t, rest), tail);
      UntilRoundTrip(t, rest, src, o + n, tail);
      assert o + n + CountAll(t, rest) == end;
      UntilStep(t, end, src, o, n, vs[0]);
      PrependFirst(vs, end);
    }
  }

  // count_from_bytes against from_bytes, on any bytes at all.

  ghost predicate Agrees<A(!new)>(t: Ty<A>) {
    forall src | Decode(t, src).Ok? :: CountFrom(t, src) == Ok(Decode(t, src).value.0)
  }

  lemma TupleAgrees<A(!new)>(a: Ty<A>, b: Ty<A>)
    requires Agrees(a) && Agrees(b)
    ensures Agrees(Tuple(a, b))
  {
  }

  lemma {:induction false} ManyAgrees<A(!new)>(t: Ty<A>, n: nat, src: Bytes, o: nat)
    requires Agrees(t) && DecodeMany(t, n, src, o).Ok?
    ensures CountMany(t, n, src, o) == Ok(DecodeMany(t, n, src, o).value.0)
    decreases n
  {
    hide Decode, CountFrom;
    if n > 0 {
      ManyAgrees(t, n - 1, src, o + Decode(t, src[o..]).value.0);
    }
  }

  lemma ArrayAgrees<A(!new)>(item: Ty<A>, n: nat)
    requires Agrees(item)
    ensures Agrees(Array(item, n))
  {
    hide DecodeMany, CountMany;
    var t := Array(item, n);
    forall src | Decode(t, src).Ok? ensures CountFrom(t, src) == Ok(Decode(t, src).value.0) {
      ManyAgrees(item, n, src, 0);
    }
  }

  lemma {:induction false} UntilAgrees<A(!new)>(t: Ty<A>, end: nat, src: Bytes, o: nat)
    requires Agrees(t) && DecodeUntil(t, end, src, o).Ok?
    ensures CountUntil(t, end, src, o) == Ok(DecodeUntil(t, end, src, o).value.0)
    ensures end <= DecodeUntil(t, end, src, o).value.0
    decreases if o < end then end - o else 0
  {
    hide Decode, CountFrom;
    if o < end {
      UntilAgrees(t, end, src, o + Decode(t, src[o..]).value.0);
    }
  }

  /** The end of a vector as declared, and as its items reach it. */
  function DeclaredEnd(src: Bytes): nat {
    var d := Varint.Decode(src);
    if d.Ok? then d.value.0 + d.value.1 else 0
  }

  function ReachedEnd<A>(item: Ty<A>, src: Bytes): nat {
    var d := Varint.Decode(src);
    if d.Err? then 0
    else
      var r := DecodeUntil(item, d.value.0 + d.value.1, src, d.value.0);
      if r.Ok? then r.value.0 else 0
  }

  /**
   * Whatever the items, fixed in size or not: `count_from_bytes` reports where they end, `from_bytes` where they
   * were declared to, so the two agree exactly if the last item does not overshoot.
   */
  lemma VecAgreesExactly<A(!new)>(item: Ty<A>, src: Bytes)
    requires Agrees(item) && Decode(Vec(item), src).Ok?
    ensures CountFrom(Vec(item), src) == Ok(ReachedEnd(item, src))
    ensures Decode(Vec(item), src).value.0 == DeclaredEnd(src) <= ReachedEnd(item, src)
    ensures CountFrom(Vec(item), src) == Ok(Decode(Vec(item), src).value.0) <==>
            ReachedEnd(item, src) == DeclaredEnd(src)
  {
    hide DecodeUntil, CountUntil, Varint.Decode, Agrees;
    var (o, len) := Varint.Decode(src).value;
    UntilAgrees(item, o + len, src, o);
  }

  /** A type whose items all take `k` bytes, as the built-in ones do and tuples and arrays of them. */
  ghost predicate Fixed<A(!new)>(t: Ty<A>, k: nat) {
    forall src | Decode(t, src).Ok? :: CountFrom(t, src) == Ok(k) && Decode(t, src).value.0 == k
  }

  lemma TupleFixed<A(!new)>(a: Ty<A>, b: Ty<A>, j: nat, k: nat)
    requires Fixed(a, j) && Fixed(b, k)
    ensures Fixed(Tuple(a, b), j + k)
  {
  }

  lemma {:induction false} ManyFixed<A(!new)>(t: Ty<A>, k: nat, n: nat, src: Bytes, o: nat)
    requires Fixed(t, k) && DecodeMany(t, n, src, o).Ok?
    ensures DecodeMany(t, n, src, o).value.0 == o + n * k && CountMany(t, n, src, o) == Ok(o + n * k)
    decreases n
  {
    hide Decode, CountFrom;
    if n > 0 {
      ManyFixed(t, k, n - 1, src, o + k);
      assert o + k + (n - 1) * k == o + n * k;
    }
  }

  lemma ArrayFixed<A(!new)>(item: Ty<A>, n: nat, k: nat)
    requires Fixed(item, k)
    ensures Fixed(Array(item, n), n * k)
  {
    hide DecodeMany, CountMany;
    var t := Array(item, n);
    forall src | Decode(t, src).Ok? ensures CountFrom(t, src) == Ok(n * k) && Decode(t, src).value.0 == n * k {
      ManyFixed(item, k, n, src, 0);
    }
  }

  lemma {:induction false} UntilFixed<A(!new)>(t: Ty<A>, k: nat, end: nat, src: Bytes, o: nat, q: nat)
    requires k > 0 && Fixed(t, k) && DecodeUntil(t, end, src, o).Ok? && o <= end
    ensures CountUntil(t, end, src, o).Ok?
    ensures var e := CountUntil(t, end, src, o).value; end <= e < end + k && (o - q) % k == (e - q) % k
    decreases end - o
  {
    hide Decode, CountFrom;
    if o < end {
      assert CountFrom(t, src[o..]) == Ok(k);
      Shift(o - q, k);
      assert o + k - q == o - q + k;
      if o + k <= end {
        UntilFixed(t, k, end, src, o + k, q);
      }
    }
  }

  lemma Shift(x: int, k: nat)
    requires k > 0
    ensures (x + k) % k == x % k
  {
    Varint.DivisionUnique(x + k, k, x / k + 1, x % k);
  }

  lemma SmallMod(x: nat, k: nat)
    requires x < k
    ensures x % k == x
  {
  }

  /**
   * A vector of fixed-size items is measured the same by both, exactly when its declared length is a whole
   * number of items; otherwise `count_from_bytes` runs past the end that `from_bytes` reports.
   */
  lemma VecAgreement<A(!new)>(item: Ty<A>, k: nat, src: Bytes)
    requires k > 0 && Fixed(item, k) && Decode(Vec(item), src).Ok?
    ensures CountFrom(Vec(item), src).Ok? && Decode(Vec(item), src).value.0 <= CountFrom(Vec(item), src).value
    ensures CountFrom(Vec(item), src).value == Decode(Vec(item), src).value.0 <==> Varint.Decode(src).value.1 % k == 0
  {
    hide DecodeUntil, CountUntil, Varint.Decode, Fixed;
    var (o, len) := Varint.Decode(src).value;
    var end := o + len;
    UntilFixed(item, k, end, src, o, end);
    var e := CountUntil(item, end, src, o).value;
    SmallMod(e - end, k);
    Negated(len, k);
    assert o - end == 0 - len;
  }

  /** A vector of one-byte items agrees on any bytes, so that vectors of such vectors are covered too. */
  lemma VecOfBytesAgrees<A(!new)>(item: Ty<A>)
    requires Fixed(item, 1)
    ensures Agrees(Vec(item))
  {
    hide Decode, CountFrom, Fixed, Varint.Decode;
    forall src | Decode(Vec(item), src).Ok?
      ensures CountFrom(Vec(item), src) == Ok(Decode(Vec(item), src).value.0)
    {
      VecAgreement(item, 1, src);
    }
  }

  lemma Negated(x: int, k: nat)
    requires k > 0
    ensures x % k == 0 <==> (0 - x) % k == 0
  {
    if x % k == 0 {
      Varint.DivisionUnique(0 - x, k, 0 - x / k, 0);
    }
    if (0 - x) % k == 0 {
      Varint.DivisionUnique(x, k, 0 - (0 - x) / k, 0);
    }
  }

  // The unsigned built-in types.

  function Pow256(n: nat): (r: nat)
    ensures r > 0
  {
    if n == 0 then 1 else 256 * Pow256(n - 1)
  }

  /** `to_be_bytes` */
  function BigEndian(v: nat, n: nat): (r: Bytes)
    ensures |r| == n
  {
    if n == 0 then [] else BigEndian(v / 256, n - 1) + [v % 256]
  }

  function FromBigEndian(b: Bytes): nat {
    if b == [] then 0 else 256 * FromBigEndian(b[..|b| - 1]) + b[|b| - 1]
  }

  lemma {:induction false} BigEndianRoundTrip(v: nat, n: nat)
    requires v < Pow256(n)
    ensures FromBigEndian(BigEndian(v, n)) == v
  {
    if n > 0 {
      BigEndianRoundTrip(v / 256, n - 1);
      var b := BigEndian(v, n);
      assert b[..n - 1] == BigEndian(v / 256, n - 1);
    }
  }

  /** The bytes are the digits of the number to the base 256, the one that counts most first. */
  lemma {:induction false} BigEndianAt(v: nat, n: nat, i: nat)
    requires i < n
    ensures BigEndian(v, n)[n - 1 - i] == v / Pow256(i) % 256
    decreases i
  {
    if i > 0 {
      BigEndianAt(v / 256, n - 1, i - 1);
      Varint.DivTwice(v, 256, Pow256(i - 1));
    }
  }

  function Unsigned(n: nat): Codec<nat> {
    Codec((v: nat) => v < Pow256(n), v => n, v => BigEndian(v, n),
          (src: Bytes) => if |src| < n then Err(SrcInsufficient) else Ok((n, FromBigEndian(src[..n]))),
          src => Ok(n))
  }

  /** u8 to u128 are lawful, agree on any bytes and have a fixed size. */
  lemma UnsignedLawful(n: nat)
    requires n > 0
    ensures LawfulCodec(Unsigned(n)) && Agrees(Leaf(Unsigned(n))) && Fixed(Leaf(Unsigned(n)), n)
  {
    var c := Unsigned(n);
    forall v: nat | c.fits(v) ensures LawfulAt(c, v) {
      forall tail ensures c.decode(c.encode(v) + tail) == Ok((c.count(v), v)) {
        assert (c.encode(v) + tail)[..n] == BigEndian(v, n);
        BigEndianRoundTrip(v, n);
      }
    }
  }

  /** A vector whose one item overshoots the declared end. */
  lemma OneItem<A>(item: Ty<A>, src: Bytes, size: nat, x: Value<A>)
    requires |src| >= 1 && Varint.Decode(src) == Ok((1, 1)) && size > 0
    requires Decode(item, src[1..]) == Ok((size, x)) && CountFrom(item, src[1..]) == Ok(size)
    ensures Decode(Vec(item), src) == Ok((2, Many([x]))) && CountFrom(Vec(item), src) == Ok(1 + size)
  {
    hide DecodeUntil, CountUntil, Varint.Decode;
    UntilStep(item, 2, src, 1, size, x);
    UntilEnd(item, 2, src, 1 + size);
    PrependFirst([x], 1 + size);
  }

  /** A vector of `u16` with one byte of items: read as two bytes long, counted as three. */
  lemma VecOvershoot()
    ensures var t := Vec(Leaf(Unsigned(2)));
            && Decode(t, [1, 0, 0]).Ok? && Decode(t, [1, 0, 0]).value.0 == 2
            && CountFrom(t, [1, 0, 0]) == Ok(3)
  {
    var src: Bytes := [1, 0, 0];
    assert Varint.Encoding(1) + [0, 0] == src;
    Varint.RoundTrip(1, [0, 0]);
    hide Varint.Decode, Varint.Encoding, FromBigEndian;
    var c := Unsigned(2);
    assert c.decode(src[1..]) == Ok((2, FromBigEndian(src[1..][..2])));
    OneItem(Leaf(c), src, 2, Atom(FromBigEndian(src[1..][..2])));
  }

  // The loops.

  method FromBytes<A>(t: Ty<A>, src: Bytes) returns (r: Result<(nat, Value<A>)>)
    ensures r == Decode(t, src)
    decreases t, 0
  {
    match t {
      case Leaf(c) =>
        var x :- c.decode(src);
        return Ok((x.0, Atom(x.1)));
      case Tuple(a, b) =>
        var x :- FromBytes(a, src);
        if x.0 > |src| {
          return Err(Panic);
        }
        var y :- FromBytes(b, src[x.0..]);
        return Ok((x.0 + y.0, Both(x.1, y.1)));
      case Array(item, n) =>
        var many :- ReadMany(item, n, src);
        return Ok((many.0, Many(many.1)));
      case Vec(item) =>
        var head :- Varint.Decode(src);
        var end := head.0 + head.1;
        var many :- ReadUntil(item, end, src, head.0);
        return Ok((end, Many(many.1)));
    }
  }

  method ReadMany<A>(t: Ty<A>, n: nat, src: Bytes) returns (r: Result<(nat, seq<Value<A>>)>)
    ensures r == DecodeMany(t, n, src, 0)
    decreases t, 1
  {
    hide Decode;
    var o: nat, vs: seq<Value<A>> := 0, [];
    PrependNil(DecodeMany(t, n, src, 0));
    for i := 0 to n
      invariant DecodeMany(t, n, src, 0) == Prepend(vs, DecodeMany(t, n - i, src, o))
    {
      if o > |src| {
        return Err(Panic);
      }
      var x :- FromBytes(t, src[o..]);
      PrependPush(vs, x.1, DecodeMany(t, n - i - 1, src, o + x.0));
      o, vs := o + x.0, vs + [x.1];
    }
    PrependEnd(vs, o);
    return Ok((o, vs));
  }

  method ReadUntil<A>(t: Ty<A>, end: nat, src: Bytes, start: nat) returns (r: Result<(nat, seq<Value<A>>)>)
    ensures r == DecodeUntil(t, end, src, start)
    decreases t, 1
  {
    hide Decode;
    var o, vs: seq<Value<A>> := start, [];
    PrependNil(DecodeUntil(t, end, src, start));
    while o < end
      invariant DecodeUntil(t, end, src, start) == Prepend(vs, DecodeUntil(t, end, src, o))
      decreases end - o
    {
      if o > |src| {
        return Err(Panic);
      }
      var x :- FromBytes(t, src[o..]);
      if x.0 == 0 {
        return Err(NonTermination);
      }
      PrependPush(vs, x.1, DecodeUntil(t, end, src, o + x.0));
      o, vs := o + x.0, vs + [x.1];
    }
    PrependEnd(vs, o);
    return Ok((o, vs));
  }

  method CountBytes<A>(t: Ty<A>, v: Value<A>) returns (n: nat)
    requires HasType(t, v)
    ensures n == Count(t, v)
    decreases t, 0
  {
    match t {
      case Leaf(c) => n := c.count(v.atom);
      case Tuple(a, b) =>
        n := CountBytes(a, v.fst);
        var m := CountBytes(b, v.snd);
        n := n + m;
      case Array(item, _) => n := CountItems(item, v.items);
      case Vec(item) =>
        n := CountItems(item, v.items);
        n := n + Varint.Length(n);
    }
  }

  method CountItems<A>(t: Ty<A>, vs: seq<Value<A>>) returns (n: nat)
    requires HaveType(t, vs)
    ensures n == CountAll(t, vs)
    decreases t, 1
  {
    n := 0;
    for i := 0 to |vs|
      invariant HaveType(t, vs[i..]) && n + CountAll(t, vs[i..]) == CountAll(t, vs)
    {
      assert vs[i..][1..] == vs[i + 1..];
      var m := CountBytes(t, vs[i]);
      n := n + m;
    }
  }

  method CountFromBytes<A>(t: Ty<A>, src: Bytes) returns (r: Result<nat>)
    ensures r == CountFrom(t, src)
    decreases t, 0
  {
    match t {
      case Leaf(c) => return c.countFrom(src);
      case Tuple(a, b) =>
        var n :- CountFromBytes(a, src);
        if n > |src| {
          return Err(Panic);
        }
        var m :- CountFromBytes(b, src[n..]);
        return Ok(n + m);
      case Array(item, n) => r := SkipMany(item, n, src);
      case Vec(item) =>
        var head :- Varint.Decode(src);
        r := SkipUntil(item, head.0 + head.1, src, head.0);
    }
  }

  method SkipMany<A>(t: Ty<A>, n: nat, src: Bytes) returns (r: Result<nat>)
    ensures r == CountMany(t, n, src, 0)
    decreases t, 1
  {
    hide CountFrom;
    var o: nat := 0;
    for i := 0 to n
      invariant CountMany(t, n, src, 0) == CountMany(t, n - i, src, o)
    {
      if o > |src| {
        return Err(Panic);
      }
      var size :- CountFromBytes(t, src[o..]);
      o := o + size;
    }
    return Ok(o);
  }

  method SkipUntil<A>(t: Ty<A>, end: nat, src: Bytes, start: nat) returns (r: Result<nat>)
    ensures r == CountUntil(t, end, src, start)
    decreases t, 1
  {
    hide CountFrom;
    var o := start;
    while o < end
      invariant CountUntil(t, end, src, start) == CountUntil(t, end, src, o)
      decreases end - o
    {
      if o > |src| {
        return Err(Panic);
      }
      var size :- CountFromBytes(t, src[o..]);
      if size == 0 {
        return Err(NonTermination);
      }
      o := o + size;
    }
    return Ok(o);
  }

  /** `write_bytes` to the part of `dst` from `off` on. */
  method WriteBytes<A(!new)>(t: Ty<A>, v: Value<A>, dst: array<Byte>, off: nat) returns (r: Result<nat>)
    requires off <= dst.Length && Lawful(t) && HasType(t, v) && Fits(t, v)
    modifies dst
    ensures r == if dst.Length - off < Count(t, v) then Err(DstTooSmall) else Ok(Count(t, v))
    ensures r.Ok? ==> |Encode(t, v)| == Count(t, v) && dst[..] == Over(old(dst[..]), off, Encode(t, v))
    ensures r.Err? ==> dst[..] == old(dst[..])
    decreases t, 0
  {
    hide Over, Varint.Encoding, Varint.Length, EncodeAll, CountAll, FitAll, HaveType;
    CountExact(t, v);
    var n := CountBytes(t, v);
    if dst.Length - off < n {
      return Err(DstTooSmall);
    }
    ghost var was := dst[..];
    match t {
      case Leaf(c) =>
        var o := Cursor.PutBytes(dst, off, c.encode(v.atom));
      case Tuple(a, b) =>
        CountExact(a, v.fst);
        CountExact(b, v.snd);
        var m := WriteBytes(a, v.fst, dst, off);
        var k := WriteBytes(b, v.snd, dst, off + m.value);
        OverOver(was, off, Encode(a, v.fst), Encode(b, v.snd));
      case Array(item, _) =>
        CountAllExact(item, v.items);
        var m := WriteItems(item, v.items, dst, off);
      case Vec(item) =>
        CountAllExact(item, v.items);
        var len := CountItems(item, v.items);
        Varint.EncodingLength(len);
        var o := Cursor.PutVarint(dst, off, len);
        var m := WriteItems(item, v.items, dst, o.value);
        OverOver(was, off, Varint.Encoding(len), EncodeAll(item, v.items));
    }
    return Ok(n);
  }

  method WriteItems<A(!new)>(t: Ty<A>, vs: seq<Value<A>>, dst: array<Byte>, off: nat) returns (n: nat)
    requires Lawful(t) && HaveType(t, vs) && FitAll(t, vs) && off + CountAll(t, vs) <= dst.Length
    modifies dst
    ensures n == CountAll(t, vs) == |EncodeAll(t, vs)| && dst[..] == Over(old(dst[..]), off, EncodeAll(t, vs))
    decreases t, 1
  {
    hide Over, Encode, Count, Lawful, Fits, HasType;
    ghost var was, done: Bytes := dst[..], [];
    CountAllExact(t, vs);
    OverNothing(was, off);
    n := 0;
    for i := 0 to |vs|
      invariant HaveType(t, vs[i..]) && FitAll(t, vs[i..])
      invariant n == |done| && n + CountAll(t, vs[i..]) == CountAll(t, vs)
      invariant done + EncodeAll(t, vs[i..]) == EncodeAll(t, vs)
      invariant dst[..] == Over(was, off, done)
    {
      assert vs[i..][1..] == vs[i + 1..];
      var m := WriteBytes(t, vs[i], dst, off + n);
      OverOver(was, off, done, Encode(t, vs[i]));
      assert done + Encode(t, vs[i]) + EncodeAll(t, vs[i + 1..]) == done + EncodeAll(t, vs[i..]);
      done, n := done + Encode(t, vs[i]), n + m.value;
    }
    assert vs[|vs|..] == [] && done + [] == done;
  }

  /** `to_bytes`: the buffer allocated is exactly filled. */
  method ToBytes<A(!new)>(t: Ty<A>, v: Value<A>) returns (r: Bytes)
    requires Lawful(t) && HasType(t, v) && Fits(t, v)
    ensures r == Encode(t, v) && |r| == Count(t, v)
  {
    CountExact(t, v);
    var n := CountBytes(t, v);
    var buf := new Byte[n](_ => 0);
    ghost var was := buf[..];
    var m := WriteBytes(t, v, buf, 0);
    OverAll(was, Encode(t, v));
    assert |was| == n && m.Ok? && buf[..] == Over(was, 0, Encode(t, v));
    r := buf[..];
  }
}
