/** A transport configuration: its parameters written to and read from a buffer, and when two
    configurations count as equal. The buffer's own encodings of strings and numbers are not part
    of this model; they come as a `Wire`, of which only the law that reading undoes writing is used. */
module Transport {
  import opened Wrappers

  type Byte = bv8

  type Int = x: int | -0x8000_0000 <= x < 0x8000_0000
  type Long = x: int | -0x8000_0000_0000_0000 <= x < 0x8000_0000_0000_0000
  type Tag = x: int | -128 <= x < 128

  /** What a read finds in front of the unread bytes and how many of them it uses up. */
  datatype Read<+T> = Short | Got(value: T, used: nat)

  datatype Codec<!T> = Codec(write: T -> seq<Byte>, read: seq<Byte> -> Read<T>)

  /** Reading finds what was written, whatever follows it. */
  ghost predicate Undoes<T(!new)>(c: Codec<T>) {
    forall x: T, rest: seq<Byte> :: c.read(c.write(x) + rest) == Got(x, |c.write(x)|)
  }

  datatype Wire = Wire(strings: Codec<string>, ints: Codec<Int>, longs: Codec<Long>, bools: Codec<bool>, tags: Codec<Tag>)

  ghost predicate Faithful(w: Wire) {
    Undoes(w.strings) && Undoes(w.ints) && Undoes(w.longs) && Undoes(w.bools) && Undoes(w.tags)
  }

  /** A parameter: one of the four types the format knows, null, or an object of another class. */
  datatype Value = Bool(b: bool) | Integer(i: Int) | LongInteger(l: Long) | Text(s: string) | Null | Other(id: int)

  const TYPE_BOOLEAN: Tag := 0
  const TYPE_INT: Tag := 1
  const TYPE_LONG: Tag := 2
  const TYPE_STRING: Tag := 3

  predicate Encodable(v: Value) {
    v.Bool? || v.Integer? || v.LongInteger? || v.Text?
  }

  datatype Error = NullReference | InvalidEncodeType(value: Value) | InvalidType(tag: Tag) | EndOfBuffer

  // ---------------------------------------------------------------- the format

  function ValueBytes(w: Wire, v: Value): seq<Byte>
    requires Encodable(v)
  {
    match v
    case Bool(b) => w.tags.write(TYPE_BOOLEAN) + w.bools.write(b)
    case Integer(i) => w.tags.write(TYPE_INT) + w.ints.write(i)
    case LongInteger(l) => w.tags.write(TYPE_LONG) + w.longs.write(l)
    case Text(s) => w.tags.write(TYPE_STRING) + w.strings.write(s)
  }

  predicate InMap(m: map<string, Value>, order: seq<string>) {
    forall i :: 0 <= i < |order| ==> order[i] in m
  }

  /** The keys of a map in the order in which it is gone through. */
  ghost predicate OrderOf(m: map<string, Value>, order: seq<string>) {
    && InMap(m, order)
    && (forall i, j :: 0 <= i < j < |order| ==> order[i] != order[j])
    && (forall k :: k in m ==> k in order)
  }

  datatype Written = Written(bytes: seq<Byte>, error: Option<Error>)

  /** The entries from first to last; the first value of an unknown type stops it after its key. */
  function EntriesWritten(w: Wire, m: map<string, Value>, order: seq<string>): Written
    requires InMap(m, order)
  {
    if order == [] then Written([], None)
    else
      var v := m[order[0]];
      if !Encodable(v) then Written(w.strings.write(order[0]), Some(InvalidEncodeType(v)))
      else
        var rest := EntriesWritten(w, m, order[1..]);
        Written(w.strings.write(order[0]) + ValueBytes(w, v) + rest.bytes, rest.error)
  }

  datatype Parsed = Parsed(entries: map<string, Value>, unread: seq<Byte>, error: Option<Error>)

  datatype Item<+T> = Item(value: Option<T>, unread: seq<Byte>)

  /** One read from the front of the unread bytes. */
  function Next<T>(c: Codec<T>, unread: seq<Byte>): Item<T> {
    match c.read(unread)
    case Short => Item(None, unread)
    case Got(x, used) => if used <= |unread| then Item(Some(x), unread[used..]) else Item(None, unread)
  }

  datatype ValueRead = ValueRead(value: Value, unread: seq<Byte>, error: Option<Error>)

  function Wrapped<T>(item: Item<T>, wrap: T -> Value): ValueRead {
    match item.value
    case None => ValueRead(Null, item.unread, Some(EndOfBuffer))
    case Some(x) => ValueRead(wrap(x), item.unread, None)
  }

  function ReadValue(w: Wire, unread: seq<Byte>): ValueRead {
    var tag := Next(w.tags, unread);
    match tag.value
    case None => ValueRead(Null, tag.unread, Some(EndOfBuffer))
    case Some(t) =>
      if t == TYPE_BOOLEAN then Wrapped(Next(w.bools, tag.unread), b => Bool(b))
      else if t == TYPE_INT then Wrapped(Next(w.ints, tag.unread), i => Integer(i))
      else if t == TYPE_LONG then Wrapped(Next(w.longs, tag.unread), l => LongInteger(l))
      else if t == TYPE_STRING then Wrapped(Next(w.strings, tag.unread), s => Text(s))
      else ValueRead(Null, tag.unread, Some(InvalidType(t)))
  }

  /** `n` entries read into `m`: a later one replaces an earlier one of the same key. */
  function ReadEntries(w: Wire, unread: seq<Byte>, n: int, m: map<string, Value>): Parsed
    decreases if n > 0 then n else 0
  {
    if n <= 0 then Parsed(m, unread, None)
    else
      var key := Next(w.strings, unread);
      match key.value
      case None => Parsed(m, key.unread, Some(EndOfBuffer))
      case Some(k) =>
        var v := ReadValue(w, key.unread);
        if v.error.Some? then Parsed(m, v.unread, v.error)
        else ReadEntries(w, v.unread, n - 1, m[k := v.value])
  }

  /** One parameter in the buffer: the key, the type byte and the value. */
  lemma EntryIs(w: Wire, k: string, v: Value)
    ensures var r := EntriesWritten(w, map[k := v], [k]);
            match v
            case Bool(b) => r == Written(w.strings.write(k) + w.tags.write(0) + w.bools.write(b), None)
            case Integer(i) => r == Written(w.strings.write(k) + w.tags.write(1) + w.ints.write(i), None)
            case LongInteger(l) => r == Written(w.strings.write(k) + w.tags.write(2) + w.longs.write(l), None)
            case Text(t) => r == Written(w.strings.write(k) + w.tags.write(3) + w.strings.write(t), None)
            case _ => r == Written(w.strings.write(k), Some(InvalidEncodeType(v)))
  {
    assert [k][1..] == [] && EntriesWritten(w, map[k := v], []) == Written([], None);
  }

  /** Parameters stand one behind the other, up to the first that cannot be written. */
  lemma {:induction false} EntriesInOrder(w: Wire, m: map<string, Value>, a: seq<string>, b: seq<string>)
    requires InMap(m, a) && InMap(m, b)
    ensures InMap(m, a + b)
    ensures var first, second := EntriesWritten(w, m, a), EntriesWritten(w, m, b);
            EntriesWritten(w, m, a + b) ==
            if first.error.Some? then first else Written(first.bytes + second.bytes, second.error)
  {
    if a == [] {
      assert a + b == b;
    } else {
      assert (a + b)[1..] == a[1..] + b && (a + b)[0] == a[0];
      EntriesInOrder(w, m, a[1..], b);
      hide ValueBytes, Encodable;
    }
  }

  /** The whole: name, class, number of parameters, and the parameters. */
  lemma LayoutIs(w: Wire, name: string, factory: string, m: map<string, Value>, order: seq<string>)
    requires OrderOf(m, order) && |m| <= MAX_INT
    ensures Encoding(w, Some(name), Some(factory), m, order) ==
            Written(w.strings.write(name) + w.strings.write(factory) + w.ints.write(|m|) + EntriesWritten(w, m, order).bytes,
                    EntriesWritten(w, m, order).error)
  {}

  /** A type byte of none of the four makes reading fail. */
  lemma UnknownType(w: Wire, t: Tag, rest: seq<Byte>)
    requires Faithful(w) && t !in {0, 1, 2, 3}
    ensures ReadValue(w, w.tags.write(t) + rest).error == Some(InvalidType(t))
    ensures ReadValue(w, w.tags.write(t) + rest).unread == rest
  {
    NextUndoes(w.tags, t, rest);
    hide Next, Faithful;
  }

  // ---------------------------------------------------------------- the round trip

  lemma NextUndoes<T(!new)>(c: Codec<T>, x: T, rest: seq<Byte>)
    requires Undoes(c)
    ensures Next(c, c.write(x) + rest) == Item(Some(x), rest)
  {
    assert c.read(c.write(x) + rest) == Got(x, |c.write(x)|);
  }

  lemma ValueUndone(w: Wire, v: Value, rest: seq<Byte>)
    requires Faithful(w) && Encodable(v)
    ensures ReadValue(w, ValueBytes(w, v) + rest) == ValueRead(v, rest, None)
  {
    hide Next, Undoes;
    match v
    case Bool(b) =>
      assert ValueBytes(w, v) + rest == w.tags.write(TYPE_BOOLEAN) + (w.bools.write(b) + rest);
      NextUndoes(w.tags, TYPE_BOOLEAN, w.bools.write(b) + rest);
      NextUndoes(w.bools, b, rest);
    case Integer(i) =>
      assert ValueBytes(w, v) + rest == w.tags.write(TYPE_INT) + (w.ints.write(i) + rest);
      NextUndoes(w.tags, TYPE_INT, w.ints.write(i) + rest);
      NextUndoes(w.ints, i, rest);
    case LongInteger(l) =>
      assert ValueBytes(w, v) + rest == w.tags.write(TYPE_LONG) + (w.longs.write(l) + rest);
      NextUndoes(w.tags, TYPE_LONG, w.longs.write(l) + rest);
      NextUndoes(w.longs, l, rest);
    case Text(s) =>
      assert ValueBytes(w, v) + rest == w.tags.write(TYPE_STRING) + (w.strings.write(s) + rest);
      NextUndoes(w.tags, TYPE_STRING, w.strings.write(s) + rest);
      NextUndoes(w.strings, s, rest);
  }

  ghost predicate AllEncodable(m: map<string, Value>, order: seq<string>) {
    InMap(m, order) && forall i :: 0 <= i < |order| ==> Encodable(m[order[i]])
  }

  /** Writing fails exactly on a value that is of none of the four types. */
  lemma {:induction false} FailsWhen(w: Wire, m: map<string, Value>, order: seq<string>)
    requires InMap(m, order)
    ensures EntriesWritten(w, m, order).error == None <==> AllEncodable(m, order)
  {
    if order != [] {
      FailsWhen(w, m, order[1..]);
      if AllEncodable(m, order) {
        assert forall i :: 0 <= i < |order| - 1 ==> order[1..][i] == order[i + 1];
      } else if Encodable(m[order[0]]) {
        assert forall i :: 1 <= i < |order| ==> order[i] == order[1..][i - 1];
      }
    }
  }

  /** `m0` with the entries of `m` that `order` names put over it. */
  ghost function PutAll(m0: map<string, Value>, m: map<string, Value>, order: seq<string>): map<string, Value>
    requires InMap(m, order)
    decreases |order|
  {
    if order == [] then m0 else PutAll(m0[order[0] := m[order[0]]], m, order[1..])
  }

  lemma {:induction false} PutAllIs(m0: map<string, Value>, m: map<string, Value>, order: seq<string>)
    requires InMap(m, order)
    ensures forall k :: k in PutAll(m0, m, order) <==> k in m0 || k in order
    ensures forall k :: k in PutAll(m0, m, order) ==> PutAll(m0, m, order)[k] == if k in order then m[k] else m0[k]
    decreases |order|
  {
    if order != [] {
      PutAllIs(m0[order[0] := m[order[0]]], m, order[1..]);
      assert forall k :: k in order <==> k == order[0] || k in order[1..];
    }
  }

  lemma Later(m: map<string, Value>, order: seq<string>)
    requires AllEncodable(m, order) && order != []
    ensures order[0] in m && Encodable(m[order[0]]) && AllEncodable(m, order[1..])
  {
    assert forall i :: 0 <= i < |order| - 1 ==> order[1..][i] == order[i + 1];
  }

  /** The entries read are the entries written, and reading goes on where writing stopped. */
  lemma {:induction false} EntriesUndone(w: Wire, m: map<string, Value>, order: seq<string>, n: nat, m0: map<string, Value>, rest: seq<Byte>)
    requires Faithful(w) && AllEncodable(m, order)
    ensures ReadEntries(w, EntriesWritten(w, m, order).bytes + rest, |order| + n, m0) ==
            ReadEntries(w, rest, n, PutAll(m0, m, order))
    decreases |order|
  {
    hide *;
    if order == [] {
      NoEntries(w, m, order, m0, rest);
    } else {
      Later(m, order);
      FirstEntry(w, m, order, m0);
      var k, v := order[0], m[order[0]];
      EntriesUndone(w, m, order[1..], n, m0[k := v], rest);
      EntryUndone(w, k, v, EntriesWritten(w, m, order[1..]).bytes, |order| + n, m0, rest);
    }
  }

  lemma NoEntries(w: Wire, m: map<string, Value>, order: seq<string>, m0: map<string, Value>, rest: seq<Byte>)
    requires InMap(m, order) && order == []
    ensures EntriesWritten(w, m, order).bytes + rest == rest && PutAll(m0, m, order) == m0
  {}

  lemma FirstEntry(w: Wire, m: map<string, Value>, order: seq<string>, m0: map<string, Value>)
    requires AllEncodable(m, order) && order != []
    ensures InMap(m, order) && InMap(m, order[1..]) && order[0] in m && Encodable(m[order[0]])
    ensures EntriesWritten(w, m, order).bytes ==
            w.strings.write(order[0]) + ValueBytes(w, m[order[0]]) + EntriesWritten(w, m, order[1..]).bytes
    ensures PutAll(m0, m, order) == PutAll(m0[order[0] := m[order[0]]], m, order[1..])
  {
    hide ValueBytes;
  }

  lemma EntryUndone(w: Wire, k: string, v: Value, later: seq<Byte>, n: nat, m0: map<string, Value>, rest: seq<Byte>)
    requires Faithful(w) && Encodable(v) && n > 0
    ensures ReadEntries(w, (w.strings.write(k) + ValueBytes(w, v) + later) + rest, n, m0) ==
            ReadEntries(w, later + rest, n - 1, m0[k := v])
  {
    NextUndoes(w.strings, k, ValueBytes(w, v) + (later + rest));
    ValueUndone(w, v, later + rest);
    Regroup4(w.strings.write(k), ValueBytes(w, v), later, rest);
    hide Next, ReadValue, ReadEntries, Faithful, Undoes, ValueBytes, Encodable;
    Entry(w, w.strings.write(k) + (ValueBytes(w, v) + (later + rest)), k, v, ValueBytes(w, v) + (later + rest), later + rest, n, m0);
  }

  lemma Entry(w: Wire, bytes: seq<Byte>, k: string, v: Value, afterKey: seq<Byte>, after: seq<Byte>, n: nat, m0: map<string, Value>)
    requires n > 0 && Next(w.strings, bytes) == Item(Some(k), afterKey) && ReadValue(w, afterKey) == ValueRead(v, after, None)
    ensures ReadEntries(w, bytes, n, m0) == ReadEntries(w, after, n - 1, m0[k := v])
  {
    hide Next, ReadValue;
  }

  lemma Regroup4(a: seq<Byte>, b: seq<Byte>, c: seq<Byte>, d: seq<Byte>)
    ensures (a + b + c) + d == a + (b + (c + d))
  {}

  /** In whatever order the map is gone through, the whole map comes back. */
  lemma MapUndone(w: Wire, m: map<string, Value>, order: seq<string>, rest: seq<Byte>)
    requires Faithful(w) && OrderOf(m, order) && AllEncodable(m, order)
    ensures ReadEntries(w, EntriesWritten(w, m, order).bytes + rest, |m|, map[]) == Parsed(m, rest, None)
  {
    WholeUndone(w, m, order, 0, rest);
  }

  lemma WholeUndone(w: Wire, m: map<string, Value>, order: seq<string>, n: nat, rest: seq<Byte>)
    requires Faithful(w) && OrderOf(m, order) && AllEncodable(m, order)
    ensures InMap(m, order)
    ensures ReadEntries(w, EntriesWritten(w, m, order).bytes + rest, |m| + n, map[]) == ReadEntries(w, rest, n, m)
  {
    hide Faithful, EntriesWritten, ReadEntries, AllEncodable, PutAll;
    EntriesUndone(w, m, order, n, map[], rest);
    AllPut(m, order);
    OrderLength(m, order);
  }

  lemma AllPut(m: map<string, Value>, order: seq<string>)
    requires OrderOf(m, order)
    ensures PutAll(map[], m, order) == m
  {
    PutAllIs(map[], m, order);
  }

  lemma {:induction false} OrderLength(m: map<string, Value>, order: seq<string>)
    requires OrderOf(m, order)
    ensures |order| == |m|
  {
    Distinct(order);
    assert (set k | k in order) == m.Keys;
  }

  lemma {:induction false} Distinct(s: seq<string>)
    requires forall i, j :: 0 <= i < j < |s| ==> s[i] != s[j]
    ensures |set k | k in s| == |s|
  {
    if s != [] {
      Distinct(s[1..]);
      assert (set k | k in s) == {s[0]} + (set k | k in s[1..]);
    }
  }

  const MAX_INT: Int := 0x7FFF_FFFF

  /** `Map.size()`, which stops at the largest int. */
  function Size(m: map<string, Value>): Int {
    if |m| <= MAX_INT then |m| else MAX_INT
  }

  /** The whole object: the string writer throws on null. */
  ghost function Encoding(w: Wire, name: Option<string>, factory: Option<string>, m: map<string, Value>, order: seq<string>): Written
    requires InMap(m, order)
  {
    if name.None? then Written([], Some(NullReference))
    else if factory.None? then Written(w.strings.write(name.value), Some(NullReference))
    else
      var head := w.strings.write(name.value) + w.strings.write(factory.value) + w.ints.write(Size(m));
      var entries := EntriesWritten(w, m, order);
      Written(head + entries.bytes, entries.error)
  }

  /** What an object becomes by reading: `absent` says that it has no parameter map. */
  datatype Decoded = Decoded(name: Option<string>, factory: Option<string>, absent: bool, entries: map<string, Value>,
                             unread: seq<Byte>, error: Option<Error>)

  function Decoding(w: Wire, unread: seq<Byte>, name: Option<string>, factory: Option<string>, absent: bool,
                    m: map<string, Value>): Decoded
  {
    var first := Next(w.strings, unread);
    if first.value.None? then Decoded(name, factory, absent, m, first.unread, Some(EndOfBuffer))
    else
      var second := Next(w.strings, first.unread);
      if second.value.None? then Decoded(first.value, factory, absent, m, second.unread, Some(EndOfBuffer))
      else
        var count := Next(w.ints, second.unread);
        if count.value.None? then Decoded(first.value, second.value, absent, m, count.unread, Some(EndOfBuffer))
        else
          var read := ReadEntries(w, count.unread, count.value.value, map[]);
          Decoded(first.value, second.value, absent && count.value.value <= 0, read.entries, read.unread, read.error)
  }

  /** Decoding undoes encoding, whatever the object held before, in whatever order the map was
      gone through and whatever follows in the buffer. Only an empty map and none are confused. */
  lemma RoundTrip(w: Wire, name: string, factory: string, m: map<string, Value>, order: seq<string>,
                  name0: Option<string>, factory0: Option<string>, absent: bool, m0: map<string, Value>, rest: seq<Byte>)
    requires Faithful(w) && OrderOf(m, order) && |m| <= MAX_INT
    requires Encoding(w, Some(name), Some(factory), m, order).error == None
    ensures Decoding(w, Encoding(w, Some(name), Some(factory), m, order).bytes + rest, name0, factory0, absent, m0) ==
            Decoded(Some(name), Some(factory), absent && m == map[], m, rest, None)
  {
    var entries := EntriesWritten(w, m, order).bytes;
    FailsWhen(w, m, order);
    MapUndone(w, m, order, rest);
    HeadUndone(w, name, factory, |m|, entries + rest, name0, factory0, absent, m0);
    hide Decoding, ReadEntries, EntriesWritten, Faithful, OrderOf, AllEncodable;
    Regroup(w.strings.write(name), w.strings.write(factory), w.ints.write(|m|), entries, rest);
  }

  lemma Regroup(a: seq<Byte>, b: seq<Byte>, c: seq<Byte>, d: seq<Byte>, e: seq<Byte>)
    ensures (a + b + c + d) + e == a + (b + (c + (d + e)))
  {}

  lemma HeadUndone(w: Wire, name: string, factory: string, n: Int, rest: seq<Byte>,
                   name0: Option<string>, factory0: Option<string>, absent: bool, m0: map<string, Value>)
    requires Faithful(w)
    ensures var read := ReadEntries(w, rest, n, map[]);
            Decoding(w, w.strings.write(name) + (w.strings.write(factory) + (w.ints.write(n) + rest)), name0, factory0, absent, m0) ==
            Decoded(Some(name), Some(factory), absent && n <= 0, read.entries, read.unread, read.error)
  {
    NextUndoes(w.ints, n, rest);
    NextUndoes(w.strings, factory, w.ints.write(n) + rest);
    NextUndoes(w.strings, name, w.strings.write(factory) + (w.ints.write(n) + rest));
    hide Next, ReadEntries, Faithful, Undoes;
  }

  /** Where the name, the class or the number cannot be read, what was read before stays and nothing else
      changes. */
  lemma StopsEarly(w: Wire, name: string, factory: string, rest: seq<Byte>,
                   name0: Option<string>, factory0: Option<string>, absent: bool, m0: map<string, Value>)
    requires Faithful(w)
    ensures w.strings.read(rest) == Short ==>
              && Decoding(w, rest, name0, factory0, absent, m0) == Decoded(name0, factory0, absent, m0, rest, Some(EndOfBuffer))
              && Decoding(w, w.strings.write(name) + rest, name0, factory0, absent, m0) ==
                 Decoded(Some(name), factory0, absent, m0, rest, Some(EndOfBuffer))
    ensures w.ints.read(rest) == Short ==>
              Decoding(w, w.strings.write(name) + (w.strings.write(factory) + rest), name0, factory0, absent, m0) ==
              Decoded(Some(name), Some(factory), absent, m0, rest, Some(EndOfBuffer))
  {
    NextUndoes(w.strings, factory, rest);
    NextUndoes(w.strings, name, rest);
    NextUndoes(w.strings, name, w.strings.write(factory) + rest);
    NothingRead(w.strings, rest);
    NothingRead(w.ints, rest);
    hide Next, ReadEntries, Faithful, Undoes;
  }

  lemma NothingRead<T>(c: Codec<T>, rest: seq<Byte>)
    ensures c.read(rest) == Short ==> Next(c, rest) == Item(None, rest)
  {}

  /** Where more parameters are announced than follow, or one is of an unknown type, those before it stay. */
  lemma BrokenOff(w: Wire, name: string, factory: string, m: map<string, Value>, order: seq<string>, n: Int, rest: seq<Byte>,
                  name0: Option<string>, factory0: Option<string>, absent: bool, m0: map<string, Value>, k: string, t: Tag, more: seq<Byte>)
    requires Faithful(w) && OrderOf(m, order) && AllEncodable(m, order) && |m| < n
    ensures var d := Decoding(w, w.strings.write(name) + (w.strings.write(factory) + (w.ints.write(n) + (EntriesWritten(w, m, order).bytes + rest))),
                              name0, factory0, absent, m0);
            && (w.strings.read(rest) == Short ==> d == Decoded(Some(name), Some(factory), false, m, rest, Some(EndOfBuffer)))
            && (t !in {0, 1, 2, 3} && rest == w.strings.write(k) + (w.tags.write(t) + more) ==>
                  d == Decoded(Some(name), Some(factory), false, m, more, Some(InvalidType(t))))
  {
    hide *;
    WholeUndone(w, m, order, n - |m|, rest);
    HeadUndone(w, name, factory, n, EntriesWritten(w, m, order).bytes + rest, name0, factory0, absent, m0);
    StopsAt(w, rest, n - |m|, m, k, t, more);
  }

  lemma StopsAt(w: Wire, rest: seq<Byte>, n: nat, m: map<string, Value>, k: string, t: Tag, more: seq<Byte>)
    requires Faithful(w) && n > 0
    ensures w.strings.read(rest) == Short ==> ReadEntries(w, rest, n, m) == Parsed(m, rest, Some(EndOfBuffer))
    ensures t !in {0, 1, 2, 3} && rest == w.strings.write(k) + (w.tags.write(t) + more) ==>
              ReadEntries(w, rest, n, m) == Parsed(m, more, Some(InvalidType(t)))
  {
    NothingRead(w.strings, rest);
    if t !in {0, 1, 2, 3} && rest == w.strings.write(k) + (w.tags.write(t) + more) {
      NextUndoes(w.strings, k, w.tags.write(t) + more);
      UnknownType(w, t, more);
    }
    hide Next, Faithful, Undoes, ReadValue;
  }

  lemma Appended(o: seq<Byte>, a: seq<Byte>, b: seq<Byte>, c: seq<Byte>, d: seq<Byte>)
    ensures o + ((a + b + c) + d) == (((o + a) + b) + c) + d
    ensures d == [] ==> o + ((a + b + c) + d) == ((o + a) + b) + c
  {}

  // ---------------------------------------------------------------- equality

  ghost predicate NoNulls(m: map<string, Value>) {
    forall k :: k in m ==> m[k] != Null
  }

  /** What `equals` comes to: the same class, and the same parameters with no null among them.
      Null as this object's class makes it throw. */
  ghost function Same(f: Option<string>, m: map<string, Value>, g: Option<string>, n: map<string, Value>): Option<bool> {
    if f.None? then None else Some(f == g && m == n && NoNulls(m))
  }

  lemma SameMaps(m: map<string, Value>, n: map<string, Value>)
    requires |m| == |n| && forall k :: k in m ==> k in n && n[k] == m[k]
    ensures m == n
  {
    SameSets(m.Keys, n.Keys);
  }

  lemma {:induction false} SameSets(s: set<string>, t: set<string>)
    requires s <= t && |s| == |t|
    ensures s == t
  {
    if s < t {
      var x :| x in t && x !in s;
      Fewer(s, t - {x});
    }
  }

  lemma {:induction false} Fewer(s: set<string>, t: set<string>)
    requires s <= t
    ensures |s| <= |t|
  {
    if s != {} {
      var x :| x in s;
      Fewer(s - {x}, t - {x});
    }
  }

  /** Of two objects that have a class: `equals` is symmetric and transitive, agrees with the
      hash code whatever the strings hash to, and holds of an object and itself exactly when no
      parameter is null. */
  lemma EqualsLaws(f: string, m: map<string, Value>, g: string, n: map<string, Value>, h: string, p: map<string, Value>, hash: string -> int)
    ensures Same(Some(f), m, Some(g), n) == Same(Some(g), n, Some(f), m)
    ensures Same(Some(f), m, Some(g), n) == Some(true) && Same(Some(g), n, Some(h), p) == Some(true) ==>
              Same(Some(f), m, Some(h), p) == Some(true)
    ensures Same(Some(f), m, Some(g), n) == Some(true) ==> hash(f) == hash(g)
    ensures Same(Some(f), m, Some(f), m) == Some(true) <==> NoNulls(m)
  {
    if m == n {} else {}
  }

  /** Two configurations of one class without null parameters are equal exactly when every key is in
      both with the same value or in neither. */
  lemma SameExactly(f: string, m: map<string, Value>, g: string, n: map<string, Value>)
    requires NoNulls(m) && NoNulls(n)
    ensures Same(Some(f), m, Some(g), n) == Some(true) <==>
            f == g && forall k :: (k in m <==> k in n) && (k in m && k in n ==> m[k] == n[k])
    ensures Same(Some(f), m, Some(g), n) != None
  {
    if forall k :: (k in m <==> k in n) && (k in m && k in n ==> m[k] == n[k]) {
      assert m == n;
    }
  }

  /** One changed value, one parameter more or another class is enough to be unequal. */
  lemma OneDifference(f: string, m: map<string, Value>, k: string, v: Value)
    requires NoNulls(m) && v != Null
    ensures Same(Some(f), m, Some(f), m[k := v]) == Some(k in m && m[k] == v)
    ensures forall g :: g != f ==> Same(Some(f), m, Some(g), m) == Some(false)
  {
    var n := m[k := v];
    if k in m && m[k] == v { assert n == m; } else { assert n != m by { assert k in n && n[k] == v; } }
  }

  /** What comes back from the buffer equals what was sent, and the other way round. */
  lemma DecodedEquals(w: Wire, name: string, factory: string, m: map<string, Value>, order: seq<string>,
                      name0: Option<string>, factory0: Option<string>, absent: bool, m0: map<string, Value>, rest: seq<Byte>)
    requires Faithful(w) && OrderOf(m, order) && |m| <= MAX_INT
    requires Encoding(w, Some(name), Some(factory), m, order).error == None
    ensures var d := Decoding(w, Encoding(w, Some(name), Some(factory), m, order).bytes + rest, name0, factory0, absent, m0);
            && d.error == None && d.unread == rest
            && Same(d.factory, d.entries, Some(factory), m) == Some(true)
            && Same(Some(factory), m, d.factory, d.entries) == Some(true)
  {
    RoundTrip(w, name, factory, m, order, name0, factory0, absent, m0, rest);
    FailsWhen(w, m, order);
    forall k | k in m
      ensures m[k] != Null
    {
      var i :| 0 <= i < |order| && order[i] == k;
    }
    hide Decoding, EntriesWritten, Faithful, OrderOf, AllEncodable;
  }

  // ---------------------------------------------------------------- equivalence of connectors

  predicate At(s: string, t: string, i: int) {
    0 <= i <= |s| - |t| && s[i..i + |t|] == t
  }

  ghost predicate Contains(s: string, t: string) {
    exists i :: At(s, t, i)
  }

  ghost predicate Equivalent(f: string, g: string) {
    f == g || (Contains(f, "Netty") && Contains(g, "Netty")) || (Contains(f, "InVM") && Contains(g, "InVM"))
  }

  /** A class between two others carries their equivalence over unless it names both transports. */
  lemma EquivalentThrough(f: string, g: string, h: string)
    requires Equivalent(f, g) && Equivalent(g, h)
    ensures (Contains(g, "Netty") && Contains(g, "InVM")) || Equivalent(f, h)
  {
    if f == g {} else if g == h {} else if Contains(g, "Netty") {} else {}
  }

  /** A name with both words joins classes of different transports, whatever else it holds. */
  lemma NotTransitive(g: string)
    requires Contains(g, "Netty") && Contains(g, "InVM")
    ensures Equivalent("Netty", g) && Equivalent(g, "InVM") && !Equivalent("Netty", "InVM")
  {
    var netty, inVM := "Netty", "InVM";
    assert At(netty, "Netty", 0) && At(inVM, "InVM", 0);
    forall i
      ensures !At(netty, "InVM", i)
    {
      if 0 <= i <= 1 { assert netty[i..i + 4][0] == netty[i]; }
    }
  }

  /** Such a name. */
  lemma HasBothWords()
    ensures Contains("NettyInVM", "Netty") && Contains("NettyInVM", "InVM")
  {
    var both := "NettyInVM";
    assert At(both, "Netty", 0) && At(both, "InVM", 5);
  }

  /** A class carries the equivalence of all others over exactly when it does not name both
      transports. */
  lemma ThroughExactly(g: string)
    ensures (forall f, h :: Equivalent(f, g) && Equivalent(g, h) ==> Equivalent(f, h)) <==>
            !(Contains(g, "Netty") && Contains(g, "InVM"))
  {
    if Contains(g, "Netty") && Contains(g, "InVM") {
      NotTransitive(g);
    } else {
      forall f, h | Equivalent(f, g) && Equivalent(g, h)
        ensures Equivalent(f, h)
      {
        EquivalentThrough(f, g, h);
      }
    }
  }

  // ---------------------------------------------------------------- the classes

  class HornetQBuffer {
    const wire: Wire
    var data: seq<Byte>
    var reader: nat

    constructor (wire: Wire)
      ensures Valid() && data == [] && reader == 0 && this.wire == wire
    {
      this.wire := wire;
      data := [];
      reader := 0;
    }

    ghost predicate Valid()
      reads this
    {
      reader <= |data|
    }

    function Unread(): seq<Byte>
      reads this
      requires Valid()
    {
      data[reader..]
    }

    method Write<T>(codec: Codec<T>, x: T)
      modifies this`data
      ensures data == old(data) + codec.write(x)
    {
      data := data + codec.write(x);
    }

    method Read<T>(codec: Codec<T>) returns (x: Option<T>)
      requires Valid()
      modifies this`reader
      ensures Valid() && Item(x, Unread()) == Next(codec, old(Unread()))
    {
      var item := Next(codec, data[reader..]);
      var found := codec.read(data[reader..]);
      if found.Got? && found.used <= |data| - reader {
        assert data[reader..][found.used..] == data[reader + found.used..];
        reader := reader + found.used;
      }
      x := item.value;
    }
  }

  /** A `HashMap`, which configurations may share. */
  class ParamMap {
    var entries: map<string, Value>

    constructor ()
      ensures entries == map[]
    {
      entries := map[];
    }
  }

  class MyTransportConfiguration {
    var name: Option<string>
    var factoryClassName: Option<string>
    var params: ParamMap?

    constructor (className: Option<string>, params: ParamMap?, name: Option<string>)
      ensures factoryClassName == className && this.params == params && this.name == name
    {
      factoryClassName := className;
      this.params := params;
      this.name := name;
    }

    /** The parameters, where none and an empty map are the same. */
    ghost function Entries(): map<string, Value>
      reads this, params
    {
      if params == null then map[] else params.entries
    }

    /** `order` is the order in which the map is gone through; the size of a map is an int. */
    method Equals(other: object?, order: seq<string>) returns (r: Option<bool>)
      requires OrderOf(Entries(), order) && |Entries()| <= MAX_INT
      requires other is MyTransportConfiguration ==> |(other as MyTransportConfiguration).Entries()| <= MAX_INT
      ensures !(other is MyTransportConfiguration) ==> r == Some(false)
      ensures other is MyTransportConfiguration ==>
                var o := other as MyTransportConfiguration;
                r == Same(factoryClassName, Entries(), o.factoryClassName, o.Entries())
      ensures other is MyTransportConfiguration && factoryClassName.Some? ==>
                var o := other as MyTransportConfiguration;
                r == Some(true) <==>
                && o.factoryClassName == factoryClassName
                && (forall k :: k in Entries() <==> k in o.Entries())
                && forall k :: k in Entries() && k in o.Entries() ==> Entries()[k] != Null && Entries()[k] == o.Entries()[k]
    {
      if !(other is MyTransportConfiguration) { return Some(false); }
      var kother := other as MyTransportConfiguration;
      if factoryClassName.None? { return None; }
      if factoryClassName != kother.factoryClassName { return Some(false); }
      if params == null || |params.entries| == 0 {
        return Some(kother.params == null || |kother.params.entries| == 0);
      }
      if kother.params == null || |kother.params.entries| == 0 { return Some(false); }
      var ours, theirs := params.entries, kother.params.entries;
      if Size(ours) != Size(theirs) { return Some(false); }
      var i := 0;
      while i < |order|
        invariant 0 <= i <= |order|
        invariant forall j :: 0 <= j < i ==> order[j] in theirs && theirs[order[j]] == ours[order[j]] != Null
      {
        var thisVal := ours[order[i]];
        var otherVal := if order[i] in theirs then theirs[order[i]] else Null;
        if otherVal == Null || otherVal != thisVal { return Some(false); }
        i := i + 1;
      }
      SameMaps(ours, theirs);
      return Some(true);
    }

    method IsEquivalent(otherConfig: MyTransportConfiguration) returns (r: bool)
      requires factoryClassName.Some? && otherConfig.factoryClassName.Some?
      ensures r <==> Equivalent(factoryClassName.value, otherConfig.factoryClassName.value)
    {
      var mine, theirs := factoryClassName.value, otherConfig.factoryClassName.value;
      if mine == theirs { return true; }
      var a := Has(mine, "Netty");
      var b := Has(theirs, "Netty");
      if a && b { return true; }
      a := Has(mine, "InVM");
      b := Has(theirs, "InVM");
      return a && b;
    }

    /** `order` is the order in which the map is gone through. */
    method Encode(buffer: HornetQBuffer, order: seq<string>) returns (error: Option<Error>)
      requires OrderOf(Entries(), order)
      modifies buffer`data
      ensures var r := Encoding(buffer.wire, name, factoryClassName, Entries(), order);
              buffer.data == old(buffer.data) + r.bytes && error == r.error
    {
      assert InMap(Entries(), order);
      assert params == null ==> order == [] by { assert order != [] ==> order[0] in Entries(); }
      hide OrderOf, InMap;
      var w := buffer.wire;
      if name.None? { return Some(NullReference); }
      buffer.Write(w.strings, name.value);
      if factoryClassName.None? { return Some(NullReference); }
      buffer.Write(w.strings, factoryClassName.value);
      buffer.Write(w.ints, if params == null then 0 else Size(params.entries));
      error := None;
      Appended(old(buffer.data), w.strings.write(name.value), w.strings.write(factoryClassName.value),
               w.ints.write(Size(Entries())), EntriesWritten(w, Entries(), order).bytes);
      if params != null {
        error := WriteEntries(buffer, params.entries, order);
      }
    }

    /** An object that has a parameter map keeps it and has it refilled. */
    method Decode(buffer: HornetQBuffer) returns (error: Option<Error>)
      requires buffer.Valid()
      modifies this, params, buffer`reader
      ensures buffer.Valid()
      ensures Decoded(name, factoryClassName, params == null, Entries(), buffer.Unread(), error) ==
              Decoding(buffer.wire, old(buffer.Unread()), old(name), old(factoryClassName), old(params) == null, old(Entries()))
      ensures if old(params) != null then params == old(params) else params == null || fresh(params)
    {
      hide Next;
      var w := buffer.wire;
      var s := buffer.Read(w.strings);
      if s.None? { return Some(EndOfBuffer); }
      name := s;
      s := buffer.Read(w.strings);
      if s.None? { return Some(EndOfBuffer); }
      factoryClassName := s;
      var num := buffer.Read(w.ints);
      if num.None? { return Some(EndOfBuffer); }
      if params == null {
        if num.value > 0 {
          params := new ParamMap();
        }
      } else {
        params.entries := map[];
      }
      error := None;
      if params != null {
        error := ReadEntriesFrom(buffer, params, num.value);
      }
    }
  }

  method Has(s: string, t: string) returns (r: bool)
    ensures r <==> Contains(s, t)
  {
    var i := 0;
    while i <= |s| - |t|
      invariant 0 <= i && forall j :: 0 <= j < i ==> !At(s, t, j)
    {
      if At(s, t, i) { return true; }
      i := i + 1;
    }
    return false;
  }

  lemma OneEntry(w: Wire, m: map<string, Value>, order: seq<string>, i: nat, data: seq<Byte>)
    requires InMap(m, order) && i < |order|
    ensures var now, then_ := EntriesWritten(w, m, order[i..]), EntriesWritten(w, m, order[i + 1..]);
            var v, key := m[order[i]], w.strings.write(order[i]);
            if Encodable(v) then
              data + now.bytes == ((data + key) + ValueBytes(w, v)) + then_.bytes && now.error == then_.error
            else
              data + now.bytes == data + key && now.error == Some(InvalidEncodeType(v))
  {
    assert order[i..][1..] == order[i + 1..] && order[i..][0] == order[i];
    hide ValueBytes, Encodable;
  }

  method WriteEntries(buffer: HornetQBuffer, entries: map<string, Value>, order: seq<string>) returns (error: Option<Error>)
    requires InMap(entries, order)
    modifies buffer`data
    ensures var r := EntriesWritten(buffer.wire, entries, order);
            buffer.data == old(buffer.data) + r.bytes && error == r.error
  {
    var w := buffer.wire;
    ghost var before := buffer.data;
    var i := 0;
    while i < |order|
      invariant 0 <= i <= |order|
      invariant var left := EntriesWritten(w, entries, order[i..]); var all := EntriesWritten(w, entries, order);
                buffer.data + left.bytes == before + all.bytes && left.error == all.error
    {
      OneEntry(w, entries, order, i, buffer.data);
      hide EntriesWritten, InMap, ValueBytes, Encodable;
      buffer.Write(w.strings, order[i]);
      error := WriteValue(buffer, entries[order[i]]);
      if error.Some? { return; }
      i := i + 1;
    }
    return None;
  }

  method WriteValue(buffer: HornetQBuffer, val: Value) returns (error: Option<Error>)
    modifies buffer`data
    ensures buffer.data == old(buffer.data) + if Encodable(val) then ValueBytes(buffer.wire, val) else []
    ensures error == if Encodable(val) then None else Some(InvalidEncodeType(val))
  {
    var w := buffer.wire;
    if val.Bool? {
      buffer.Write(w.tags, TYPE_BOOLEAN);
      buffer.Write(w.bools, val.b);
    } else if val.Integer? {
      buffer.Write(w.tags, TYPE_INT);
      buffer.Write(w.ints, val.i);
    } else if val.LongInteger? {
      buffer.Write(w.tags, TYPE_LONG);
      buffer.Write(w.longs, val.l);
    } else if val.Text? {
      buffer.Write(w.tags, TYPE_STRING);
      buffer.Write(w.strings, val.s);
    } else {
      return Some(InvalidEncodeType(val));
    }
    return None;
  }

  method ReadEntriesFrom(buffer: HornetQBuffer, params: ParamMap, num: Int) returns (error: Option<Error>)
    requires buffer.Valid()
    modifies params, buffer`reader
    ensures buffer.Valid()
    ensures Parsed(params.entries, buffer.Unread(), error) == ReadEntries(buffer.wire, old(buffer.Unread()), num, old(params.entries))
  {
    hide Next, ReadValue;
    var i := 0;
    while i < num
      invariant buffer.Valid() && (i <= num || i == 0)
      invariant ReadEntries(buffer.wire, buffer.Unread(), num - i, params.entries) ==
                ReadEntries(buffer.wire, old(buffer.Unread()), num, old(params.entries))
    {
      var key := buffer.Read(buffer.wire.strings);
      if key.None? { return Some(EndOfBuffer); }
      var val;
      val, error := ReadValueFrom(buffer);
      if error.Some? { return; }
      params.entries := params.entries[key.value := val];
      i := i + 1;
    }
    return None;
  }

  method ReadValueFrom(buffer: HornetQBuffer) returns (val: Value, error: Option<Error>)
    requires buffer.Valid()
    modifies buffer`reader
    ensures buffer.Valid() && ValueRead(val, buffer.Unread(), error) == ReadValue(buffer.wire, old(buffer.Unread()))
  {
    var w := buffer.wire;
    hide Next;
    val, error := Null, Some(EndOfBuffer);
    var type_ := buffer.Read(w.tags);
    if type_.None? { return; }
    match type_.value {
      case 0 =>
        var b := buffer.Read(w.bools);
        if b.Some? { val, error := Bool(b.value), None; }
      case 1 =>
        var n := buffer.Read(w.ints);
        if n.Some? { val, error := Integer(n.value), None; }
      case 2 =>
        var l := buffer.Read(w.longs);
        if l.Some? { val, error := LongInteger(l.value), None; }
      case 3 =>
        var s := buffer.Read(w.strings);
        if s.Some? { val, error := Text(s.value), None; }
      case _ =>
        error := Some(InvalidType(type_.value));
    }
  }
}
