// The top-level class-file codec (section 4.1 of the Java Virtual Machine Specification) and its
// constant-pool table, over given codecs for single constants, fields, methods, and attributes.
module ClassFiles {
  import opened Text
  import opened BigEndian

  type U16 = n: int | 0 <= n < 0x1_0000

  const MAGIC: nat := 0xCAFE_BABE

  // `CounterOverflow`: the pool counter, a 16-bit integer, steps past its type.
  datatype Error = UnexpectedEof(needed: nat) | BadMagic(magic: nat) | TrailingBytes | CounterOverflow | Malformed

  // What reading leaves: a value and the unread rest.
  datatype Outcome<+T> = Fail(error: Error) | Read(value: T, rest: Bytes)
  {
    predicate IsFailure() {
      Fail?
    }

    function PropagateFailure<U>(): Outcome<U>
      requires Fail?
    {
      Fail(error)
    }

    function Extract(): (T, Bytes)
      requires Read?
    {
      (value, rest)
    }
  }

  // A codec whose reader may consult context, such as the constant pool; `fits` says which values
  // belong to a context.
  datatype Codec<!C, !T> = Codec(read: (C, Bytes) -> Outcome<T>, write: T -> Bytes, fits: (C, T) -> bool)

  ghost predicate ReadsBack<C, T>(codec: Codec<C, T>, context: C, item: T, rest: Bytes) {
    codec.fits(context, item) ==> codec.read(context, codec.write(item) + rest) == Read(item, rest)
  }

  ghost predicate Exact<C, T>(codec: Codec<C, T>, context: C, input: Bytes) {
    var r := codec.read(context, input);
    r.Read? ==> codec.fits(context, r.value) && input == codec.write(r.value) + r.rest
  }

  ghost predicate Inverse<C(!new), T(!new)>(codec: Codec<C, T>) {
    && (forall context, item, rest {:trigger ReadsBack(codec, context, item, rest)} ::
          ReadsBack(codec, context, item, rest))
    && (forall context, input {:trigger Exact(codec, context, input)} :: Exact(codec, context, input))
  }

  // ---- Integers ----

  function Number(input: Bytes, width: nat): Outcome<nat> {
    if |input| < width then Fail(UnexpectedEof(width)) else Read(Decode(input[..width]), input[width..])
  }

  function Short(input: Bytes): (r: Outcome<U16>)
    ensures r.Read? ==> |r.rest| + 2 == |input|
  {
    Spans();
    if |input| < 2 then Fail(UnexpectedEof(2)) else Read(Decode(input[..2]), input[2..])
  }

  lemma NumberReads(n: nat, width: nat, rest: Bytes)
    requires n < Span(width)
    ensures Number(Encode(n, width) + rest, width) == Read(n, rest)
  {
    DecodeEncode(n, width);
    assert (Encode(n, width) + rest)[..width] == Encode(n, width);
    assert (Encode(n, width) + rest)[width..] == rest;
  }

  lemma NumberExact(input: Bytes, width: nat)
    ensures var r := Number(input, width); r.Read? ==> input == Encode(r.value, width) + r.rest
  {
    if |input| >= width {
      var head := input[..width];
      EncodeDecode(head);
      assert |head| == width && input == head + input[width..];
    }
  }

  lemma ShortReads(n: U16, rest: Bytes)
    ensures Short(Encode(n, 2) + rest) == Read(n, rest)
  {
    Spans();
    NumberReads(n, 2, rest);
  }

  lemma ShortExact(input: Bytes)
    ensures var r := Short(input); r.Read? ==> input == Encode(r.value, 2) + r.rest
  {
    NumberExact(input, 2);
  }

  // ---- Counted lists ----

  function ReadItems<C, T>(codec: Codec<C, T>, context: C, input: Bytes, count: nat): Outcome<seq<T>>
    decreases count
  {
    if count == 0 then Read([], input)
    else
      var item :- codec.read(context, input);
      var more :- ReadItems(codec, context, item.1, count - 1);
      Read([item.0] + more.0, more.1)
  }

  function ReadList<C, T>(codec: Codec<C, T>, context: C, input: Bytes): Outcome<seq<T>> {
    var count :- Short(input);
    ReadItems(codec, context, count.1, count.0)
  }

  function WriteItems<C, T>(codec: Codec<C, T>, items: seq<T>): Bytes
    decreases |items|
  {
    if items == [] then [] else codec.write(items[0]) + WriteItems(codec, items[1..])
  }

  // The count is a 16-bit cast of the length.
  function WriteList<C, T>(codec: Codec<C, T>, items: seq<T>): Bytes {
    Encode(|items|, 2) + WriteItems(codec, items)
  }

  ghost predicate ListFits<C, T>(codec: Codec<C, T>, context: C, items: seq<T>) {
    |items| < 0x1_0000 && forall item :: item in items ==> codec.fits(context, item)
  }

  lemma {:induction false} ItemsRead<C(!new), T(!new)>(codec: Codec<C, T>, context: C, items: seq<T>, rest: Bytes)
    requires Inverse(codec) && forall item :: item in items ==> codec.fits(context, item)
    ensures ReadItems(codec, context, WriteItems(codec, items) + rest, |items|) == Read(items, rest)
    decreases |items|
  {
    if items == [] {
      assert WriteItems(codec, items) + rest == rest;
    } else {
      var after := WriteItems(codec, items[1..]) + rest;
      assert WriteItems(codec, items) + rest == codec.write(items[0]) + after;
      assert ReadsBack(codec, context, items[0], after);
      assert items[0] in items;
      ItemsRead(codec, context, items[1..], rest);
      assert [items[0]] + items[1..] == items;
    }
  }

  lemma {:induction false} ItemsExact<C(!new), T(!new)>(codec: Codec<C, T>, context: C, input: Bytes, count: nat)
    requires Inverse(codec)
    ensures var r := ReadItems(codec, context, input, count);
      r.Read? ==> (
        && |r.value| == count
        && (forall item :: item in r.value ==> codec.fits(context, item))
        && input == WriteItems(codec, r.value) + r.rest)
    decreases count
  {
    var r := ReadItems(codec, context, input, count);
    if count == 0 {
      assert WriteItems(codec, []) + input == input;
    } else if r.Read? {
      assert Exact(codec, context, input);
      var item := codec.read(context, input);
      ItemsExact(codec, context, item.rest, count - 1);
      var more := ReadItems(codec, context, item.rest, count - 1);
      assert r.value[1..] == more.value && r.value[0] == item.value;
      assert input == codec.write(item.value) + WriteItems(codec, more.value) + more.rest;
    }
  }

  lemma ListReads<C(!new), T(!new)>(codec: Codec<C, T>, context: C, items: seq<T>, rest: Bytes)
    requires Inverse(codec) && ListFits(codec, context, items)
    ensures ReadList(codec, context, WriteList(codec, items) + rest) == Read(items, rest)
  {
    var after := WriteItems(codec, items) + rest;
    assert WriteList(codec, items) + rest == Encode(|items|, 2) + after;
    ShortReads(|items|, after);
    ItemsRead(codec, context, items, rest);
  }

  lemma ListExact<C(!new), T(!new)>(codec: Codec<C, T>, context: C, input: Bytes)
    requires Inverse(codec)
    ensures var r := ReadList(codec, context, input);
      r.Read? ==> ListFits(codec, context, r.value) && input == WriteList(codec, r.value) + r.rest
  {
    ShortExact(input);
    var count := Short(input);
    if count.Read? {
      ItemsExact(codec, context, count.rest, count.value);
      var r := ReadList(codec, context, input);
      if r.Read? {
        assert input == Encode(|r.value|, 2) + WriteItems(codec, r.value) + r.rest;
      }
    }
  }

  // ---- The constant pool ----

  // Index 0 holds the sentinel, and the slot after a `Long` or `Double` holds nothing.
  datatype Slot<+E> = Sentinel | Constant(entry: E) | Gap

  datatype PoolCodec<!E> = PoolCodec(entries: Codec<(), E>, wide: E -> bool)

  function ReadSlots<E>(codec: PoolCodec<E>, input: Bytes, i: nat, count: nat): Outcome<seq<Slot<E>>>
    decreases count - i
  {
    if i >= count then Read([], input)
    else
      var entry :- codec.entries.read((), input);
      var next := if codec.wide(entry.0) then i + 2 else i + 1;
      if next >= 0x1_0000 then Fail(CounterOverflow)
      else
        var more :- ReadSlots(codec, entry.1, next, count);
        Read(SlotsOf(codec, entry.0) + more.0, more.1)
  }

  function SlotsOf<E>(codec: PoolCodec<E>, entry: E): seq<Slot<E>> {
    [Constant(entry)] + if codec.wide(entry) then [Gap] else []
  }

  function ReadPool<E>(codec: PoolCodec<E>, input: Bytes): Outcome<seq<Slot<E>>> {
    var count :- Short(input);
    var slots :- ReadSlots(codec, count.1, 1, count.0);
    Read([Sentinel] + slots.0, slots.1)
  }

  function WriteSlots<E>(codec: PoolCodec<E>, slots: seq<Slot<E>>): Bytes
    decreases |slots|
  {
    if slots == [] then []
    else (if slots[0].Constant? then codec.entries.write(slots[0].entry) else []) + WriteSlots(codec, slots[1..])
  }

  function WritePool<E>(codec: PoolCodec<E>, pool: seq<Slot<E>>): Bytes {
    Encode(|pool|, 2) + WriteSlots(codec, pool)
  }

  // Every wide entry is followed by its gap, and no other slot is one.
  ghost predicate LaidOut<E>(codec: PoolCodec<E>, slots: seq<Slot<E>>)
    decreases |slots|
  {
    slots == []
    || (&& slots[0].Constant?
        && codec.entries.fits((), slots[0].entry)
        && SlotsOf(codec, slots[0].entry) <= slots
        && LaidOut(codec, slots[|SlotsOf(codec, slots[0].entry)|..]))
  }

  ghost predicate PoolFits<E>(codec: PoolCodec<E>, pool: seq<Slot<E>>) {
    0 < |pool| < 0x1_0000 && pool[0] == Sentinel && LaidOut(codec, pool[1..])
  }

  lemma WriteSlotsFirst<E>(codec: PoolCodec<E>, entry: E, more: seq<Slot<E>>)
    ensures WriteSlots(codec, SlotsOf(codec, entry) + more) == codec.entries.write(entry) + WriteSlots(codec, more)
  {
    var slots := SlotsOf(codec, entry) + more;
    if codec.wide(entry) {
      assert slots[1..] == [Gap] + more && slots[1..][1..] == more;
    } else {
      assert slots[1..] == more;
    }
  }

  lemma {:induction false} SlotsRead<E(!new)>(codec: PoolCodec<E>, slots: seq<Slot<E>>, i: nat, rest: Bytes)
    requires Inverse(codec.entries) && LaidOut(codec, slots) && i + |slots| < 0x1_0000
    ensures ReadSlots(codec, WriteSlots(codec, slots) + rest, i, i + |slots|) == Read(slots, rest)
    decreases |slots|
  {
    if slots == [] {
      assert WriteSlots(codec, slots) + rest == rest;
    } else {
      var entry := slots[0].entry;
      var own := SlotsOf(codec, entry);
      var more := slots[|own|..];
      assert slots == own + more;
      WriteSlotsFirst(codec, entry, more);
      var after := WriteSlots(codec, more) + rest;
      assert WriteSlots(codec, slots) + rest == codec.entries.write(entry) + after;
      assert ReadsBack(codec.entries, (), entry, after);
      SlotsRead(codec, more, i + |own|, rest);
    }
  }

  // What reading slots guarantees: they are laid out, in range, and rewrite to what was read.
  ghost predicate SlotsGenuine<E>(codec: PoolCodec<E>, input: Bytes, i: nat, r: Outcome<seq<Slot<E>>>) {
    r.Read? ==> (
      && LaidOut(codec, r.value) && i + |r.value| < 0x1_0000
      && input == WriteSlots(codec, r.value) + r.rest)
  }

  lemma SlotsExtend<E>(codec: PoolCodec<E>, entry: E, more: seq<Slot<E>>, input: Bytes, rest: Bytes, after: Bytes)
    requires codec.entries.fits((), entry) && LaidOut(codec, more)
    requires input == codec.entries.write(entry) + rest && rest == WriteSlots(codec, more) + after
    ensures LaidOut(codec, SlotsOf(codec, entry) + more)
    ensures input == WriteSlots(codec, SlotsOf(codec, entry) + more) + after
  {
    var own := SlotsOf(codec, entry);
    assert (own + more)[|own|..] == more && own <= own + more;
    WriteSlotsFirst(codec, entry, more);
  }

  lemma {:induction false} SlotsExact<E(!new)>(codec: PoolCodec<E>, input: Bytes, i: nat, count: nat)
    requires Inverse(codec.entries) && i < 0x1_0000
    ensures SlotsGenuine(codec, input, i, ReadSlots(codec, input, i, count))
    decreases count - i
  {
    var r := ReadSlots(codec, input, i, count);
    if i >= count {
      assert WriteSlots(codec, []) + input == input;
    } else if r.Read? {
      assert Exact(codec.entries, (), input);
      var entry := codec.entries.read((), input);
      var next := i + |SlotsOf(codec, entry.value)|;
      SlotsExact(codec, entry.rest, next, count);
      var more := ReadSlots(codec, entry.rest, next, count);
      SlotsExtend(codec, entry.value, more.value, input, entry.rest, more.rest);
    }
  }

  predicate Counted<E(==)>(slots: seq<Slot<E>>, size: nat, count: nat) {
    size == count || (size == count + 1 && slots != [] && slots[|slots| - 1] == Gap)
  }

  // A declared count ends with as many slots, or with one more for a wide entry in its last place.
  lemma {:induction false} SlotsCount<E>(codec: PoolCodec<E>, input: Bytes, i: nat, count: nat)
    requires i <= count
    ensures var r := ReadSlots(codec, input, i, count); r.Read? ==> Counted(r.value, i + |r.value|, count)
    decreases count - i
  {
    var r := ReadSlots(codec, input, i, count);
    if i < count && r.Read? {
      var entry := codec.entries.read((), input);
      var own := SlotsOf(codec, entry.value);
      var more := ReadSlots(codec, entry.rest, i + |own|, count);
      assert r.value == own + more.value;
      if i + |own| <= count {
        SlotsCount(codec, entry.rest, i + |own|, count);
      } else {
        assert own[1] == Gap && more.value == [];
      }
    }
  }

  lemma PoolCount<E>(codec: PoolCodec<E>, input: Bytes)
    ensures var r := ReadPool(codec, input);
      r.Read? ==> (
        && |input| >= 2
        && var count := Decode(input[..2]);
           Counted(r.value, |r.value|, count) || (count == 0 && r.value == [Sentinel]))
  {
    var count := Short(input);
    if count.Read? && count.value >= 1 {
      SlotsCount(codec, count.rest, 1, count.value);
    }
  }

  lemma PoolReads<E(!new)>(codec: PoolCodec<E>, pool: seq<Slot<E>>, rest: Bytes)
    requires Inverse(codec.entries) && PoolFits(codec, pool)
    ensures ReadPool(codec, WritePool(codec, pool) + rest) == Read(pool, rest)
  {
    var after := WriteSlots(codec, pool[1..]) + rest;
    assert WritePool(codec, pool) + rest == Encode(|pool|, 2) + after;
    ShortReads(|pool|, after);
    SlotsRead(codec, pool[1..], 1, rest);
    assert [Sentinel] + pool[1..] == pool;
  }

  // Whatever is read fits, and rewriting it changes at most the declared count.
  lemma PoolExact<E(!new)>(codec: PoolCodec<E>, input: Bytes)
    requires Inverse(codec.entries)
    ensures var r := ReadPool(codec, input);
      r.Read? ==> (
        && PoolFits(codec, r.value) && |input| >= 2
        && input[2..] == WriteSlots(codec, r.value) + r.rest)
  {
    var count := Short(input);
    if count.Read? {
      SlotsExact(codec, count.rest, 1, count.value);
      var slots := ReadSlots(codec, count.rest, 1, count.value);
      if slots.Read? {
        var pool := [Sentinel] + slots.value;
        assert pool[1..] == slots.value;
        assert WriteSlots(codec, pool) == [] + WriteSlots(codec, slots.value);
      }
    }
  }

  // ---- The class file ----

  datatype ClassFile<+E, +F, +M, +A> = ClassFile(
    minor: U16, major: U16, pool: seq<Slot<E>>, access: U16, thisClass: U16, superClass: U16,
    interfaces: seq<U16>, fields: seq<F>, methods: seq<M>, attributes: seq<A>)

  // The lists after the header.
  datatype Body<+F, +M, +A> = Body(interfaces: seq<U16>, fields: seq<F>, methods: seq<M>, attributes: seq<A>)

  datatype Codecs<!E, !F, !M, !A> = Codecs(
    pool: PoolCodec<E>, fields: Codec<seq<Slot<E>>, F>, methods: Codec<seq<Slot<E>>, M>,
    attributes: Codec<seq<Slot<E>>, A>)

  ghost predicate AllInverse<E(!new), F(!new), M(!new), A(!new)>(codecs: Codecs<E, F, M, A>) {
    Inverse(codecs.pool.entries) && Inverse(codecs.fields) && Inverse(codecs.methods) && Inverse(codecs.attributes)
  }

  function ShortCodec<C>(): Codec<C, U16> {
    Codec((context, input) => Short(input), n => Encode(n, 2), (context, n) => true)
  }

  lemma ShortCodecInverse<C(!new)>()
    ensures Inverse(ShortCodec<C>())
  {
    var codec := ShortCodec<C>();
    forall context: C, item: U16, rest: Bytes ensures ReadsBack(codec, context, item, rest) {
      ShortReads(item, rest);
    }
    forall context: C, input: Bytes ensures Exact(codec, context, input) {
      ShortExact(input);
    }
  }

  // Such codecs exist, wide constants among them: here every part is a word, and a constant is wide
  // when it is the tag of a `Long` or a `Double`.
  function WordCodecs(): Codecs<U16, U16, U16, U16> {
    Codecs(PoolCodec(ShortCodec(), n => n == 5 || n == 6), ShortCodec(), ShortCodec(), ShortCodec())
  }

  lemma CodecsExist()
    ensures AllInverse(WordCodecs())
    ensures WordCodecs().pool.entries.fits((), 5) && WordCodecs().pool.wide(5) && !WordCodecs().pool.wide(1)
  {
    ShortCodecInverse<()>();
    ShortCodecInverse<seq<Slot<U16>>>();
  }

  function BodyOf<E, F, M, A>(c: ClassFile<E, F, M, A>): Body<F, M, A> {
    Body(c.interfaces, c.fields, c.methods, c.attributes)
  }

  function ReadBody<E, F, M, A>(codecs: Codecs<E, F, M, A>, pool: seq<Slot<E>>, input: Bytes): Outcome<Body<F, M, A>> {
    var interfaces :- ReadList(ShortCodec(), pool, input);
    var fields :- ReadList(codecs.fields, pool, interfaces.1);
    var methods :- ReadList(codecs.methods, pool, fields.1);
    var attributes :- ReadList(codecs.attributes, pool, methods.1);
    Read(Body(interfaces.0, fields.0, methods.0, attributes.0), attributes.1)
  }

  function ReadAfterPool<E, F, M, A>(codecs: Codecs<E, F, M, A>, minor: U16, major: U16, pool: seq<Slot<E>>,
                                     input: Bytes)
    : Outcome<ClassFile<E, F, M, A>>
  {
    var access :- Short(input);
    var thisClass :- Short(access.1);
    var superClass :- Short(thisClass.1);
    var body :- ReadBody(codecs, pool, superClass.1);
    Read(ClassFile(minor, major, pool, access.0, thisClass.0, superClass.0,
                   body.0.interfaces, body.0.fields, body.0.methods, body.0.attributes), body.1)
  }

  function ReadStart(input: Bytes): Outcome<(U16, U16)> {
    var magic :- Number(input, 4);
    if magic.0 != MAGIC then Fail(BadMagic(magic.0))
    else
      var minor :- Short(magic.1);
      var major :- Short(minor.1);
      Read((minor.0, major.0), major.1)
  }

  function ReadParts<E, F, M, A>(codecs: Codecs<E, F, M, A>, input: Bytes): Outcome<ClassFile<E, F, M, A>> {
    var start :- ReadStart(input);
    var pool :- ReadPool(codecs.pool, start.1);
    ReadAfterPool(codecs, start.0.0, start.0.1, pool.0, pool.1)
  }

  function ReadClass<E, F, M, A>(codecs: Codecs<E, F, M, A>, input: Bytes): Result<ClassFile<E, F, M, A>, Error> {
    match ReadParts(codecs, input)
    case Fail(error) => Err(error)
    case Read(c, rest) => if rest != [] then Err(TrailingBytes) else Ok(c)
  }

  function WriteBody<E, F, M, A>(codecs: Codecs<E, F, M, A>, body: Body<F, M, A>): Bytes {
    WriteList(ShortCodec<seq<Slot<E>>>(), body.interfaces)
      + (WriteList(codecs.fields, body.fields)
         + (WriteList(codecs.methods, body.methods) + WriteList(codecs.attributes, body.attributes)))
  }

  function WriteAfterPool<E, F, M, A>(codecs: Codecs<E, F, M, A>, c: ClassFile<E, F, M, A>): Bytes {
    Encode(c.access, 2) + (Encode(c.thisClass, 2) + (Encode(c.superClass, 2) + WriteBody(codecs, BodyOf(c))))
  }

  function WriteStart(minor: U16, major: U16): (r: Bytes)
    ensures |r| == 8
  {
    Encode(MAGIC, 4) + (Encode(minor, 2) + Encode(major, 2))
  }

  function WriteClass<E, F, M, A>(codecs: Codecs<E, F, M, A>, c: ClassFile<E, F, M, A>): Bytes {
    WriteStart(c.minor, c.major) + (WritePool(codecs.pool, c.pool) + WriteAfterPool(codecs, c))
  }

  // Every count fits its 16-bit field, and every part belongs to the class's pool.
  ghost predicate BodyFits<E, F, M, A>(codecs: Codecs<E, F, M, A>, pool: seq<Slot<E>>, body: Body<F, M, A>) {
    && |body.interfaces| < 0x1_0000
    && ListFits(codecs.fields, pool, body.fields)
    && ListFits(codecs.methods, pool, body.methods)
    && ListFits(codecs.attributes, pool, body.attributes)
  }

  ghost predicate WellFormed<E, F, M, A>(codecs: Codecs<E, F, M, A>, c: ClassFile<E, F, M, A>) {
    PoolFits(codecs.pool, c.pool) && BodyFits(codecs, c.pool, BodyOf(c))
  }

  lemma BodyReads<E(!new), F(!new), M(!new), A(!new)>(
      codecs: Codecs<E, F, M, A>, pool: seq<Slot<E>>, body: Body<F, M, A>, rest: Bytes)
    requires AllInverse(codecs) && BodyFits(codecs, pool, body)
    ensures ReadBody(codecs, pool, WriteBody(codecs, body) + rest) == Read(body, rest)
  {
    var attributes := WriteList(codecs.attributes, body.attributes) + rest;
    var methods := WriteList(codecs.methods, body.methods) + attributes;
    var fields := WriteList(codecs.fields, body.fields) + methods;
    ShortCodecInverse<seq<Slot<E>>>();
    assert WriteBody(codecs, body) + rest == WriteList(ShortCodec<seq<Slot<E>>>(), body.interfaces) + fields;
    ListReads(ShortCodec(), pool, body.interfaces, fields);
    ListReads(codecs.fields, pool, body.fields, methods);
    ListReads(codecs.methods, pool, body.methods, attributes);
    ListReads(codecs.attributes, pool, body.attributes, rest);
  }

  lemma BodyExact<E(!new), F(!new), M(!new), A(!new)>(codecs: Codecs<E, F, M, A>, pool: seq<Slot<E>>, input: Bytes)
    requires AllInverse(codecs)
    ensures var r := ReadBody(codecs, pool, input);
      r.Read? ==> BodyFits(codecs, pool, r.value) && input == WriteBody(codecs, r.value) + r.rest
  {
    ShortCodecInverse<seq<Slot<E>>>();
    var r := ReadBody(codecs, pool, input);
    if r.Read? {
      ListExact(ShortCodec(), pool, input);
      var fields := ReadList(ShortCodec(), pool, input).rest;
      ListExact(codecs.fields, pool, fields);
      var methods := ReadList(codecs.fields, pool, fields).rest;
      ListExact(codecs.methods, pool, methods);
      var attributes := ReadList(codecs.methods, pool, methods).rest;
      ListExact(codecs.attributes, pool, attributes);
    }
  }

  lemma AfterPoolReads<E(!new), F(!new), M(!new), A(!new)>(
      codecs: Codecs<E, F, M, A>, c: ClassFile<E, F, M, A>, rest: Bytes)
    requires AllInverse(codecs) && BodyFits(codecs, c.pool, BodyOf(c))
    ensures ReadAfterPool(codecs, c.minor, c.major, c.pool, WriteAfterPool(codecs, c) + rest) == Read(c, rest)
  {
    var body := WriteBody(codecs, BodyOf(c)) + rest;
    var superClass := Encode(c.superClass, 2) + body;
    var thisClass := Encode(c.thisClass, 2) + superClass;
    assert WriteAfterPool(codecs, c) + rest == Encode(c.access, 2) + thisClass;
    ShortReads(c.access, thisClass);
    ShortReads(c.thisClass, superClass);
    ShortReads(c.superClass, body);
    BodyReads(codecs, c.pool, BodyOf(c), rest);
  }

  lemma Rejoin(a: Bytes, b: Bytes, c: Bytes, d: Bytes, rest: Bytes)
    ensures a + (b + (c + (d + rest))) == (a + (b + (c + d))) + rest
  {
  }

  lemma AfterPoolExact<E(!new), F(!new), M(!new), A(!new)>(
      codecs: Codecs<E, F, M, A>, minor: U16, major: U16, pool: seq<Slot<E>>, input: Bytes)
    requires AllInverse(codecs)
    ensures var r := ReadAfterPool(codecs, minor, major, pool, input);
      r.Read? ==> (
        && BodyFits(codecs, pool, BodyOf(r.value))
        && (r.value.minor, r.value.major, r.value.pool) == (minor, major, pool)
        && input == WriteAfterPool(codecs, r.value) + r.rest)
  {
    var r := ReadAfterPool(codecs, minor, major, pool, input);
    if r.Read? {
      var access := Short(input);
      var thisClass := Short(access.rest);
      var superClass := Short(thisClass.rest);
      ShortExact(input);
      ShortExact(access.rest);
      ShortExact(thisClass.rest);
      BodyExact(codecs, pool, superClass.rest);
      var body := ReadBody(codecs, pool, superClass.rest);
      assert BodyOf(r.value) == body.value;
      Rejoin(Encode(access.value, 2), Encode(thisClass.value, 2), Encode(superClass.value, 2),
             WriteBody(codecs, body.value), body.rest);
    }
  }

  lemma StartReads(minor: U16, major: U16, rest: Bytes)
    ensures ReadStart(WriteStart(minor, major) + rest) == Read((minor, major), rest)
  {
    Spans();
    var afterMinor := Encode(major, 2) + rest;
    var afterMagic := Encode(minor, 2) + afterMinor;
    assert WriteStart(minor, major) + rest == Encode(MAGIC, 4) + afterMagic;
    NumberReads(MAGIC, 4, afterMagic);
    ShortReads(minor, afterMinor);
    ShortReads(major, rest);
  }

  lemma StartExact(input: Bytes)
    ensures var r := ReadStart(input);
      r.Read? ==> input == WriteStart(r.value.0, r.value.1) + r.rest
  {
    var r := ReadStart(input);
    if r.Read? {
      var magic := Number(input, 4);
      var minor := Short(magic.rest);
      NumberExact(input, 4);
      ShortExact(magic.rest);
      ShortExact(minor.rest);
      RejoinThree(Encode(MAGIC, 4), Encode(r.value.0, 2), Encode(r.value.1, 2), r.rest);
    }
  }

  lemma RejoinThree(a: Bytes, b: Bytes, c: Bytes, rest: Bytes)
    ensures a + (b + (c + rest)) == (a + (b + c)) + rest
  {
  }

  lemma PartsRead<E(!new), F(!new), M(!new), A(!new)>(
      codecs: Codecs<E, F, M, A>, c: ClassFile<E, F, M, A>, rest: Bytes)
    requires AllInverse(codecs) && WellFormed(codecs, c)
    ensures ReadParts(codecs, WriteClass(codecs, c) + rest) == Read(c, rest)
  {
    var after := WriteAfterPool(codecs, c) + rest;
    var pool := WritePool(codecs.pool, c.pool) + after;
    assert WriteClass(codecs, c) + rest == WriteStart(c.minor, c.major) + pool;
    StartReads(c.minor, c.major, pool);
    PoolReads(codecs.pool, c.pool, after);
    AfterPoolReads(codecs, c, rest);
  }

  // The declared pool count of a class file.
  function Declared(input: Bytes): nat
    requires |input| >= 10
  {
    Decode(input[8..10])
  }

  // Rewriting what was read reproduces every byte but, perhaps, the pool count, which becomes the
  // number of slots.
  lemma ReadIsExact<E(!new), F(!new), M(!new), A(!new)>(codecs: Codecs<E, F, M, A>, input: Bytes)
    requires AllInverse(codecs)
    ensures var r := ReadClass(codecs, input);
      r.Ok? ==> (
        && WellFormed(codecs, r.value) && |input| >= 10
        && WriteClass(codecs, r.value) == input[..8] + Encode(|r.value.pool|, 2) + input[10..])
  {
    var r := ReadClass(codecs, input);
    if r.Ok? {
      var c := r.value;
      StartExact(input);
      var poolInput := ReadStart(input).rest;
      PoolExact(codecs.pool, poolInput);
      var pool := ReadPool(codecs.pool, poolInput);
      AfterPoolExact(codecs, ReadStart(input).value.0, ReadStart(input).value.1, pool.value, pool.rest);
      Rewritten(codecs, c, input, poolInput, pool.rest);
    }
  }

  lemma Rewritten<E, F, M, A>(
      codecs: Codecs<E, F, M, A>, c: ClassFile<E, F, M, A>, input: Bytes, poolInput: Bytes, after: Bytes)
    requires input == WriteStart(c.minor, c.major) + poolInput
    requires |poolInput| >= 2 && poolInput[2..] == WriteSlots(codecs.pool, c.pool) + after
    requires after == WriteAfterPool(codecs, c) + []
    ensures |input| >= 10 && WriteClass(codecs, c) == input[..8] + Encode(|c.pool|, 2) + input[10..]
  {
    assert after == WriteAfterPool(codecs, c);
    Splice(WriteStart(c.minor, c.major), Encode(|c.pool|, 2), WriteSlots(codecs.pool, c.pool), after, poolInput);
  }

  lemma Splice(start: Bytes, count: Bytes, slots: Bytes, after: Bytes, poolInput: Bytes)
    requires |start| == 8 && |poolInput| >= 2 && poolInput[2..] == slots + after
    ensures start + (count + slots + after) == (start + poolInput)[..8] + count + (start + poolInput)[10..]
  {
    assert (start + poolInput)[..8] == start && (start + poolInput)[10..] == slots + after;
    assert start + (count + slots + after) == start + count + (slots + after);
  }

  // ---- Main results ----

  // The layout of section 4.1: the magic number, the minor and then the major version, the pool's
  // count and entries, three 16-bit words, and the four lists.
  lemma Layout<E, F, M, A>(codecs: Codecs<E, F, M, A>, c: ClassFile<E, F, M, A>)
    ensures var written := WriteClass(codecs, c);
      var at := 8 + |WritePool(codecs.pool, c.pool)|;
      && |written| >= at + 6
      && written[..4] == [0xCA, 0xFE, 0xBA, 0xBE]
      && written[4..6] == Encode(c.minor, 2) && written[6..8] == Encode(c.major, 2)
      && written[8..10] == Encode(|c.pool|, 2)
      && written[10..at] == WriteSlots(codecs.pool, c.pool)
      && written[at..at + 2] == Encode(c.access, 2)
      && written[at + 2..at + 4] == Encode(c.thisClass, 2)
      && written[at + 4..at + 6] == Encode(c.superClass, 2)
      && written[at + 6..] == WriteBody(codecs, BodyOf(c))
  {
    MagicBytes();
    StartParts(Encode(MAGIC, 4), Encode(c.minor, 2), Encode(c.major, 2));
    WordParts(Encode(c.access, 2), Encode(c.thisClass, 2), Encode(c.superClass, 2), WriteBody(codecs, BodyOf(c)));
    CountParts(Encode(|c.pool|, 2), WriteSlots(codecs.pool, c.pool));
    Apart(WriteStart(c.minor, c.major), WritePool(codecs.pool, c.pool), WriteAfterPool(codecs, c));
  }

  lemma StartParts(magic: Bytes, minor: Bytes, major: Bytes)
    requires |magic| == 4 && |minor| == |major| == 2
    ensures var start := magic + (minor + major);
      start[..4] == magic && start[4..6] == minor && start[6..8] == major
  {
  }

  lemma CountParts(count: Bytes, rest: Bytes)
    requires |count| == 2
    ensures (count + rest)[..2] == count && (count + rest)[2..] == rest
  {
  }

  lemma WordParts(a: Bytes, b: Bytes, c: Bytes, rest: Bytes)
    requires |a| == |b| == |c| == 2
    ensures var words := a + (b + (c + rest));
      words[..2] == a && words[2..4] == b && words[4..6] == c && words[6..] == rest
  {
  }

  lemma MagicBytes()
    ensures Encode(MAGIC, 4) == [0xCA, 0xFE, 0xBA, 0xBE]
  {
    assert Encode(0xCA, 1) == [0xCA];
    assert Encode(0xCAFE, 2) == [0xCA, 0xFE];
    assert Encode(0xCAFE_BA, 3) == [0xCA, 0xFE, 0xBA];
  }

  // Slices of three parts laid end to end.
  lemma Apart(start: Bytes, pool: Bytes, after: Bytes)
    requires |start| == 8 && |pool| >= 2 && |after| >= 6
    ensures var written := start + (pool + after);
      var at := 8 + |pool|;
      && written[..4] == start[..4] && written[4..6] == start[4..6] && written[6..8] == start[6..8]
      && written[8..10] == pool[..2] && written[10..at] == pool[2..]
      && written[at..at + 2] == after[..2] && written[at + 2..at + 4] == after[2..4]
      && written[at + 4..at + 6] == after[4..6] && written[at + 6..] == after[6..]
  {
  }

  // Reading back what was written gives the same class exactly when every count fits.
  lemma WriteReadExactly<E(!new), F(!new), M(!new), A(!new)>(codecs: Codecs<E, F, M, A>, c: ClassFile<E, F, M, A>)
    requires AllInverse(codecs)
    ensures ReadClass(codecs, WriteClass(codecs, c)) == Ok(c) <==> WellFormed(codecs, c)
  {
    var written := WriteClass(codecs, c);
    if WellFormed(codecs, c) {
      PartsRead(codecs, c, []);
      assert written + [] == written;
    }
    ReadIsExact(codecs, written);
  }

  // Writing back what was read gives the same bytes exactly when the declared pool count is the
  // number of slots, and in any case reads back the same.
  lemma ReadWriteExactly<E(!new), F(!new), M(!new), A(!new)>(codecs: Codecs<E, F, M, A>, input: Bytes)
    requires AllInverse(codecs) && ReadClass(codecs, input).Ok?
    ensures |input| >= 10
    ensures var c := ReadClass(codecs, input).value;
      && (WriteClass(codecs, c) == input <==> Declared(input) == |c.pool|)
      && ReadClass(codecs, WriteClass(codecs, c)) == Ok(c)
  {
    ReadIsExact(codecs, input);
    var c := ReadClass(codecs, input).value;
    WriteReadExactly(codecs, c);
    CountDecides(input, WriteClass(codecs, c), |c.pool|);
  }

  lemma CountDecides(input: Bytes, written: Bytes, slots: nat)
    requires |input| >= 10 && slots < 0x1_0000 && written == input[..8] + Encode(slots, 2) + input[10..]
    ensures written == input <==> Declared(input) == slots
  {
    Spans();
    DecodeEncode(slots, 2);
    EncodeDecode(input[8..10]);
    assert written[8..10] == Encode(slots, 2);
    assert input == input[..8] + input[8..10] + input[10..];
  }

  // The two ways the count is not: none declared, or a last `Long` or `Double` declared one slot short.
  lemma RewrittenCount<E(!new), F(!new), M(!new), A(!new)>(codecs: Codecs<E, F, M, A>, input: Bytes)
    requires AllInverse(codecs) && ReadClass(codecs, input).Ok?
    ensures |input| >= 10
    ensures var pool := ReadClass(codecs, input).value.pool;
      Declared(input) != |pool| <==>
        Declared(input) == 0 || (Declared(input) + 1 == |pool| && pool[|pool| - 1] == Gap)
  {
    ReadIsExact(codecs, input);
    StartExact(input);
    var poolInput := ReadStart(input).rest;
    PoolCount(codecs.pool, poolInput);
    assert input[8..10] == poolInput[..2];
    assert ReadClass(codecs, input).value.pool == ReadPool(codecs.pool, poolInput).value by {
      var start := ReadStart(input).value;
      var pool := ReadPool(codecs.pool, poolInput);
      AfterPoolExact(codecs, start.0, start.1, pool.value, pool.rest);
    }
  }

  function Zeros(n: nat): Bytes {
    seq(n, i => 0)
  }

  lemma ZeroShort()
    ensures Encode(0, 2) == Zeros(2)
  {
    assert Encode(0, 1) == [0];
  }

  lemma EmptyPoolReads<E>(codec: PoolCodec<E>)
    ensures ReadPool(codec, Zeros(16)) == Read([Sentinel], Zeros(14))
  {
    ZeroShort();
    ShortReads(0, Zeros(14));
    assert Zeros(16) == Zeros(2) + Zeros(14);
    assert ReadSlots(codec, Zeros(14), 1, 0) == Read([], Zeros(14));
    var sentinel: seq<Slot<E>> := [Sentinel];
    assert sentinel + [] == sentinel;
  }

  predicate OnlyPool<E, F(==), M(==), A(==)>(c: ClassFile<E, F, M, A>) {
    && c.access == c.thisClass == c.superClass == 0
    && c.interfaces == [] && c.fields == [] && c.methods == [] && c.attributes == []
  }

  lemma EmptyClassReads<E(!new), F(!new), M(!new), A(!new)>(
      codecs: Codecs<E, F, M, A>, c: ClassFile<E, F, M, A>, poolInput: Bytes)
    requires AllInverse(codecs) && OnlyPool(c)
    requires ReadPool(codecs.pool, poolInput) == Read(c.pool, Zeros(14))
    ensures ReadClass(codecs, WriteStart(c.minor, c.major) + poolInput) == Ok(c)
  {
    StartReads(c.minor, c.major, poolInput);
    EmptyBody(codecs, c);
    AfterPoolReads(codecs, c, []);
    assert Zeros(14) + [] == Zeros(14);
  }

  lemma DeclaredIs(n: U16, start: Bytes, rest: Bytes)
    requires |start| == 8
    ensures Declared(start + (Encode(n, 2) + rest)) == n
  {
    assert (start + (Encode(n, 2) + rest))[8..10] == Encode(n, 2);
    Spans();
    DecodeEncode(n, 2);
  }

  lemma NotExact<E(!new), F(!new), M(!new), A(!new)>(
      codecs: Codecs<E, F, M, A>, c: ClassFile<E, F, M, A>, input: Bytes)
    requires AllInverse(codecs) && ReadClass(codecs, input) == Ok(c)
    requires |input| >= 10 && Declared(input) != |c.pool|
    ensures WriteClass(codecs, c) != input
  {
    ReadWriteExactly(codecs, input);
  }

  lemma NothingDeclared(start: Bytes)
    requires |start| == 8
    ensures Declared(start + Zeros(16)) == 0
  {
    ZeroShort();
    assert Zeros(16) == Encode(0, 2) + Zeros(14);
    DeclaredIs(0, start, Zeros(14));
  }

  // A class file declaring no pool at all is read, and written back with another count...
  lemma EmptyPoolNotExact<E(!new), F(!new), M(!new), A(!new)>(
      codecs: Codecs<E, F, M, A>, c: ClassFile<E, F, M, A>, input: Bytes)
    requires AllInverse(codecs) && OnlyPool(c) && c.pool == [Sentinel]
    requires input == WriteStart(c.minor, c.major) + Zeros(16)
    ensures ReadClass(codecs, input) == Ok(c) && WriteClass(codecs, c) != input
  {
    EmptyPoolReads(codecs.pool);
    EmptyClassReads(codecs, c, Zeros(16));
    NothingDeclared(WriteStart(c.minor, c.major));
    NotExact(codecs, c, input);
  }

  lemma WidePoolReads<E(!new)>(codec: PoolCodec<E>, entry: E, rest: Bytes)
    requires Inverse(codec.entries) && codec.entries.fits((), entry) && codec.wide(entry)
    ensures ReadPool(codec, Encode(2, 2) + (codec.entries.write(entry) + rest))
         == Read([Sentinel, Constant(entry), Gap], rest)
  {
    var slots := codec.entries.write(entry) + rest;
    ShortReads(2, slots);
    assert ReadsBack(codec.entries, (), entry, rest);
    var own: seq<Slot<E>> := [Constant(entry), Gap];
    assert SlotsOf(codec, entry) == own && own + [] == own;
    assert ReadSlots(codec, rest, 3, 2) == Read([], rest);
    assert ReadSlots(codec, slots, 1, 2) == Read(own, rest);
    assert [Sentinel] + own == [Sentinel, Constant(entry), Gap];
  }

  // ... and so is one whose last entry is a `Long` or `Double` declared one slot short.
  lemma WideTailNotExact<E(!new), F(!new), M(!new), A(!new)>(
      codecs: Codecs<E, F, M, A>, c: ClassFile<E, F, M, A>, entry: E, input: Bytes)
    requires AllInverse(codecs) && OnlyPool(c) && c.pool == [Sentinel, Constant(entry), Gap]
    requires codecs.pool.entries.fits((), entry) && codecs.pool.wide(entry)
    requires input == WriteStart(c.minor, c.major) + (Encode(2, 2) + (codecs.pool.entries.write(entry) + Zeros(14)))
    ensures ReadClass(codecs, input) == Ok(c) && WriteClass(codecs, c) != input
  {
    var rest := codecs.pool.entries.write(entry) + Zeros(14);
    WidePoolReads(codecs.pool, entry, Zeros(14));
    EmptyClassReads(codecs, c, Encode(2, 2) + rest);
    DeclaredIs(2, WriteStart(c.minor, c.major), rest);
    NotExact(codecs, c, input);
  }

  lemma EmptyBody<E(!new), F(!new), M(!new), A(!new)>(codecs: Codecs<E, F, M, A>, c: ClassFile<E, F, M, A>)
    requires OnlyPool(c)
    ensures WriteAfterPool(codecs, c) == Zeros(14)
  {
    ZeroShort();
    var list := Zeros(2);
    assert list + [] == list;
    assert WriteBody(codecs, BodyOf(c)) == list + (list + (list + list));
    assert WriteBody(codecs, BodyOf(c)) == Zeros(8);
  }

  // Nothing may follow a class file...
  lemma TrailingBytesRefused<E(!new), F(!new), M(!new), A(!new)>(
      codecs: Codecs<E, F, M, A>, c: ClassFile<E, F, M, A>, extra: Bytes)
    requires AllInverse(codecs) && WellFormed(codecs, c) && extra != []
    ensures ReadClass(codecs, WriteClass(codecs, c) + extra) == Err(TrailingBytes)
  {
    PartsRead(codecs, c, extra);
  }

  // ... and nothing else may start one.
  lemma OtherMagicRefused<E, F, M, A>(codecs: Codecs<E, F, M, A>, input: Bytes)
    requires |input| >= 4 && input[..4] != Encode(MAGIC, 4)
    ensures ReadClass(codecs, input) == Err(BadMagic(Decode(input[..4])))
  {
    EncodeDecode(input[..4]);
  }

  // ---- Reading and writing in place ----

  predicate Took<T(==)>(r: Result<T, Error>, rest: Bytes, outcome: Outcome<T>) {
    match outcome
    case Fail(error) => r == Err(error)
    case Read(value, after) => r == Ok(value) && rest == after
  }

  function After<T>(items: seq<T>, more: Outcome<seq<T>>): Outcome<seq<T>> {
    match more
    case Fail(error) => Fail(error)
    case Read(rest, unread) => Read(items + rest, unread)
  }

  lemma AfterOne<T>(items: seq<T>, own: seq<T>, more: Outcome<seq<T>>)
    ensures After(items, After(own, more)) == After(items + own, more)
  {
    if more.Read? {
      assert items + (own + more.value) == items + own + more.value;
    }
  }

  // A slice source consumes itself from the front.
  class Reader {
    var src: Bytes

    constructor (source: Bytes)
      ensures src == source
    {
      src := source;
    }

    method U32() returns (r: Result<nat, Error>)
      modifies this
      ensures Took(r, src, Number(old(src), 4))
      ensures r.Err? ==> src == old(src)
    {
      if |src| < 4 {
        return Err(UnexpectedEof(4));
      }
      r := Ok(Decode(src[..4]));
      src := src[4..];
    }

    method U16() returns (r: Result<U16, Error>)
      modifies this
      ensures Took(r, src, Short(old(src)))
      ensures r.Err? ==> src == old(src) && |src| < 2 && r.error == UnexpectedEof(2)
      ensures r.Ok? ==> |old(src)| >= 2 && src == old(src)[2..]
      ensures r.Ok? ==> var (high: int, low: int) := (old(src)[0], old(src)[1]); r.value == 0x100 * high + low
    {
      if |src| < 2 {
        return Err(UnexpectedEof(2));
      }
      Spans();
      Weights(src[0], src[1], 0, 0);
      assert src[..2] == [src[0], src[1]];
      r := Ok(Decode(src[..2]));
      src := src[2..];
    }

    method List<C, T(==)>(codec: Codec<C, T>, context: C) returns (r: Result<seq<T>, Error>)
      modifies this
      ensures Took(r, src, ReadList(codec, context, old(src)))
    {
      var count := U16();
      if count.Err? {
        return Err(count.error);
      }
      ghost var all := ReadItems(codec, context, src, count.value);
      var items: seq<T> := [];
      var i := 0;
      assert After([], all) == all by {
        if all.Read? { assert [] + all.value == all.value; }
      }
      while i < count.value
        invariant 0 <= i <= count.value
        invariant all == After(items, ReadItems(codec, context, src, count.value - i))
      {
        var item := codec.read(context, src);
        if item.Fail? {
          return Err(item.error);
        }
        AfterOne(items, [item.value], ReadItems(codec, context, item.rest, count.value - i - 1));
        items := items + [item.value];
        src := item.rest;
        i := i + 1;
      }
      assert items + [] == items;
      r := Ok(items);
    }

    method Pool<E(==)>(codec: PoolCodec<E>) returns (r: Result<seq<Slot<E>>, Error>)
      modifies this
      ensures Took(r, src, ReadPool(codec, old(src)))
    {
      var count := U16();
      if count.Err? {
        return Err(count.error);
      }
      ghost var all := After([Sentinel], ReadSlots(codec, src, 1, count.value));
      var slots: seq<Slot<E>> := [Sentinel];
      var i: nat := 1;
      while i < count.value
        invariant all == After(slots, ReadSlots(codec, src, i, count.value))
        decreases count.value - i
      {
        var entry := codec.entries.read((), src);
        if entry.Fail? {
          return Err(entry.error);
        }
        var wide := codec.wide(entry.value);
        if i + (if wide then 2 else 1) >= 0x1_0000 {
          return Err(CounterOverflow);
        }
        AfterOne(slots, SlotsOf(codec, entry.value),
                 ReadSlots(codec, entry.rest, i + (if wide then 2 else 1), count.value));
        assert slots + [Constant(entry.value)] + [Gap] == slots + ([Constant(entry.value)] + [Gap]);
        assert slots + ([Constant(entry.value)] + []) == slots + [Constant(entry.value)];
        slots := slots + [Constant(entry.value)];
        if wide {
          slots := slots + [Gap];
          i := i + 2;
        } else {
          i := i + 1;
        }
        src := entry.rest;
      }
      assert slots + [] == slots;
      r := Ok(slots);
    }

    method ExpectEof() returns (r: Result<(), Error>)
      ensures r == if src == [] then Ok(()) else Err(TrailingBytes)
    {
      r := if src == [] then Ok(()) else Err(TrailingBytes);
    }
  }

  class Writer {
    var buf: Bytes

    constructor ()
      ensures buf == []
    {
      buf := [];
    }

    method U32(n: nat)
      modifies this
      ensures buf == old(buf) + Encode(n, 4)
    {
      buf := buf + Encode(n, 4);
    }

    method U16(n: nat)
      modifies this
      ensures buf == old(buf) + Encode(n, 2)
    {
      buf := buf + Encode(n, 2);
    }

    method List<C, T>(codec: Codec<C, T>, items: seq<T>)
      modifies this
      ensures buf == old(buf) + WriteList(codec, items)
    {
      U16(|items|);
      ghost var start := buf;
      for i := 0 to |items|
        invariant buf == start + WriteItems(codec, items[..i])
      {
        assert items[..i + 1] == items[..i] + [items[i]];
        WriteItemsAppend(codec, items[..i], items[i]);
        Regroup(start, WriteItems(codec, items[..i]), codec.write(items[i]));
        buf := buf + codec.write(items[i]);
      }
      assert items[..|items|] == items;
    }

    method Pool<E>(codec: PoolCodec<E>, pool: seq<Slot<E>>)
      modifies this
      ensures buf == old(buf) + WritePool(codec, pool)
    {
      U16(|pool|);
      ghost var start := buf;
      for i := 0 to |pool|
        invariant buf == start + WriteSlots(codec, pool[..i])
      {
        WriteSlotsAppend(codec, pool[..i], pool[i]);
        assert pool[..i + 1] == pool[..i] + [pool[i]];
        if pool[i].Constant? {
          buf := buf + codec.entries.write(pool[i].entry);
        }
      }
      assert pool[..|pool|] == pool;
    }
  }

  lemma Regroup(start: Bytes, a: Bytes, b: Bytes)
    ensures start + a + b == start + (a + b)
  {
  }

  lemma {:induction false} WriteItemsAppend<C, T>(codec: Codec<C, T>, items: seq<T>, item: T)
    ensures WriteItems(codec, items + [item]) == WriteItems(codec, items) + codec.write(item)
    decreases |items|
  {
    if items == [] {
      assert codec.write(item) + [] == codec.write(item) == [] + codec.write(item);
    } else {
      assert (items + [item])[1..] == items[1..] + [item];
      WriteItemsAppend(codec, items[1..], item);
    }
  }

  lemma {:induction false} WriteSlotsAppend<E>(codec: PoolCodec<E>, slots: seq<Slot<E>>, slot: Slot<E>)
    ensures WriteSlots(codec, slots + [slot])
         == WriteSlots(codec, slots) + if slot.Constant? then codec.entries.write(slot.entry) else []
    decreases |slots|
  {
    if slots == [] {
      assert (slots + [slot])[1..] == [];
      assert WriteSlots(codec, slots + [slot])
          == (if slot.Constant? then codec.entries.write(slot.entry) else []) + WriteSlots(codec, slots);
    } else {
      assert (slots + [slot])[1..] == slots[1..] + [slot];
      WriteSlotsAppend(codec, slots[1..], slot);
    }
  }

  method ReadLists<E(==), F(==), M(==), A(==)>(codecs: Codecs<E, F, M, A>, pool: seq<Slot<E>>, r: Reader)
    returns (body: Result<Body<F, M, A>, Error>)
    modifies r
    ensures Took(body, r.src, ReadBody(codecs, pool, old(r.src)))
  {
    var interfaces := r.List(ShortCodec(), pool);
    if interfaces.Err? {
      return Err(interfaces.error);
    }
    var fields := r.List(codecs.fields, pool);
    if fields.Err? {
      return Err(fields.error);
    }
    var methods := r.List(codecs.methods, pool);
    if methods.Err? {
      return Err(methods.error);
    }
    var attributes := r.List(codecs.attributes, pool);
    if attributes.Err? {
      return Err(attributes.error);
    }
    body := Ok(Body(interfaces.value, fields.value, methods.value, attributes.value));
  }

  method ReadVersion(r: Reader) returns (version: Result<(U16, U16), Error>)
    modifies r
    ensures Took(version, r.src, ReadStart(old(r.src)))
  {
    var magic := r.U32();
    if magic.Err? {
      return Err(magic.error);
    }
    if magic.value != MAGIC {
      return Err(BadMagic(magic.value));
    }
    var minor := r.U16();
    if minor.Err? {
      return Err(minor.error);
    }
    var major := r.U16();
    if major.Err? {
      return Err(major.error);
    }
    version := Ok((minor.value, major.value));
  }

  method ReadRest<E(==), F(==), M(==), A(==)>(
      codecs: Codecs<E, F, M, A>, minor: U16, major: U16, pool: seq<Slot<E>>, r: Reader)
    returns (c: Result<ClassFile<E, F, M, A>, Error>)
    modifies r
    ensures Took(c, r.src, ReadAfterPool(codecs, minor, major, pool, old(r.src)))
  {
    var access := r.U16();
    if access.Err? {
      return Err(access.error);
    }
    var thisClass := r.U16();
    if thisClass.Err? {
      return Err(thisClass.error);
    }
    var superClass := r.U16();
    if superClass.Err? {
      return Err(superClass.error);
    }
    var body := ReadLists(codecs, pool, r);
    if body.Err? {
      return Err(body.error);
    }
    var b := body.value;
    c := Ok(ClassFile(minor, major, pool, access.value, thisClass.value, superClass.value,
                      b.interfaces, b.fields, b.methods, b.attributes));
  }

  // `ClassFile::read`, over an in-memory source.
  method ReadFrom<E(==), F(==), M(==), A(==)>(codecs: Codecs<E, F, M, A>, source: Bytes)
    returns (c: Result<ClassFile<E, F, M, A>, Error>)
    ensures c == ReadClass(codecs, source)
  {
    var r := new Reader(source);
    var version := ReadVersion(r);
    if version.Err? {
      return Err(version.error);
    }
    var pool := r.Pool(codecs.pool);
    if pool.Err? {
      return Err(pool.error);
    }
    c := ReadRest(codecs, version.value.0, version.value.1, pool.value, r);
    if c.Ok? {
      var eof := r.ExpectEof();
      if eof.Err? {
        return Err(eof.error);
      }
    }
  }

  method WriteLists<E, F, M, A>(codecs: Codecs<E, F, M, A>, body: Body<F, M, A>, w: Writer)
    modifies w
    ensures w.buf == old(w.buf) + WriteBody(codecs, body)
  {
    ghost var start := w.buf;
    w.List(ShortCodec<seq<Slot<E>>>(), body.interfaces);
    w.List(codecs.fields, body.fields);
    w.List(codecs.methods, body.methods);
    w.List(codecs.attributes, body.attributes);
    Chain(start, WriteList(ShortCodec<seq<Slot<E>>>(), body.interfaces), WriteList(codecs.fields, body.fields),
          WriteList(codecs.methods, body.methods), WriteList(codecs.attributes, body.attributes));
  }

  lemma Chain(start: Bytes, a: Bytes, b: Bytes, c: Bytes, d: Bytes)
    ensures start + a + b + c + d == start + (a + (b + (c + d)))
  {
  }

  method WriteAfter<E, F, M, A>(codecs: Codecs<E, F, M, A>, c: ClassFile<E, F, M, A>, w: Writer)
    modifies w
    ensures w.buf == old(w.buf) + WriteAfterPool(codecs, c)
  {
    ghost var start := w.buf;
    w.U16(c.access);
    w.U16(c.thisClass);
    w.U16(c.superClass);
    WriteLists(codecs, BodyOf(c), w);
    Chain(start, Encode(c.access, 2), Encode(c.thisClass, 2), Encode(c.superClass, 2), WriteBody(codecs, BodyOf(c)));
  }

  method WriteVersion(minor: U16, major: U16, w: Writer)
    modifies w
    ensures w.buf == old(w.buf) + WriteStart(minor, major)
  {
    ghost var start := w.buf;
    w.U32(MAGIC);
    w.U16(minor);
    w.U16(major);
    assert start + Encode(MAGIC, 4) + Encode(minor, 2) + Encode(major, 2) == start + WriteStart(minor, major);
  }

  // `ClassFile::write`.
  method WriteTo<E, F, M, A>(codecs: Codecs<E, F, M, A>, c: ClassFile<E, F, M, A>) returns (out: Bytes)
    ensures out == WriteClass(codecs, c)
  {
    var w := new Writer();
    WriteVersion(c.minor, c.major, w);
    w.Pool(codecs.pool, c.pool);
    WriteAfter(codecs, c, w);
    Three(WriteStart(c.minor, c.major), WritePool(codecs.pool, c.pool), WriteAfterPool(codecs, c));
    out := w.buf;
  }

  lemma Three(a: Bytes, b: Bytes, c: Bytes)
    ensures [] + a + b + c == a + (b + c)
  {
  }
}
