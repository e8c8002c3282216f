/** The file-mapping cache (rust/crates/thttpd-mmc). A mapping is a reference-counted handle: an identity and
    the bytes it shows. `held` collects the handles that are out with connections. Times are nanoseconds. */
module MmapCache {
  import opened Common

  datatype FileKey = FileKey(dev: nat, ino: nat, size: nat, ctimeSec: int, ctimeNsec: int)
  datatype File = File(key: FileKey, bytes: seq<Byte>)
  datatype Mapping = Mapping(id: nat, bytes: seq<Byte>)
  datatype Entry = Entry(mapping: Mapping, lastUsed: nat, size: nat)
  datatype Held = Held(key: FileKey, mapping: Mapping)
  /** What opening a path and asking for its metadata gives. */
  datatype Opened = Missing | NoMetadata | Found(file: File)
  datatype Outcome = Mapped(mapping: Mapping) | FileNotFound | IoError

  datatype Cache = Cache(
    entries: map<FileKey, Entry>,
    expireAge: nat,
    maxSize: nat,
    held: multiset<Held>,
    nextId: nat)

  // ----- Operations. -----

  /** `map`: open and stat give `found`; `mappable` tells whether a fresh mapping would succeed. */
  function MapSpec(c: Cache, found: Opened, mappable: bool, now: nat): (Outcome, Cache) {
    if found.Missing? then (FileNotFound, c)
    else if found.NoMetadata? then (IoError, c)
    else
      var key := found.file.key;
      if key in c.entries then
        var m := c.entries[key].mapping;
        (Mapped(m), c.(entries := c.entries[key := c.entries[key].(lastUsed := now)],
                       held := c.held + multiset{Held(key, m)}))
      else if !mappable then (IoError, c)
      else
        var m := Mapping(c.nextId, found.file.bytes);
        (Mapped(m), c.(entries := c.entries[key := Entry(m, now, key.size)],
                       held := c.held + multiset{Held(key, m)},
                       nextId := c.nextId + 1))
  }

  function ReleaseSpec(c: Cache, h: Held): Cache {
    c.(held := c.held - multiset{h})
  }

  /** `Rc::strong_count > 1`: someone outside the cache holds this mapping. */
  predicate Referenced(held: multiset<Held>, m: Mapping) {
    exists h :: h in held && h.mapping.id == m.id
  }

  predicate Kept(c: Cache, e: Entry, now: nat) {
    Referenced(c.held, e.mapping) || now - e.lastUsed < c.expireAge
  }

  function SizeOf(): Entry -> int {
    (e: Entry) => e.size
  }

  /** Adaptive expiry: halve when too large, double while below two minutes. */
  function Adapted(age: nat, oversize: bool): nat {
    if oversize then age / 2 else if age < 120 * SECOND then age * 2 else age
  }

  ghost function CleanupSpec(c: Cache, now: nat): Cache {
    var kept := map k | k in c.entries && Kept(c, c.entries[k], now) :: c.entries[k];
    c.(entries := kept, expireAge := Adapted(c.expireAge, Total(kept, SizeOf()) > c.maxSize))
  }

  // ----- What every sequence of operations keeps. -----

  /** Every mapping shows the content of its key, every handle that is out is the cached one. */
  ghost predicate Inv(c: Cache, content: FileKey -> seq<Byte>) {
    && (forall k :: k in c.entries ==> c.entries[k].mapping.bytes == content(k) && c.entries[k].mapping.id < c.nextId)
    && (forall j, k :: j in c.entries && k in c.entries && j != k ==> c.entries[j].mapping.id != c.entries[k].mapping.id)
    && (forall h :: h in c.held ==> h.key in c.entries && c.entries[h.key].mapping == h.mapping)
    && c.expireAge < 240 * SECOND
  }

  datatype Op =
    | Map(found: Opened, mappable: bool)
    | Release(handle: Held)
    | Cleanup

  datatype Timed = Timed(at: nat, op: Op)

  ghost function Apply(c: Cache, t: Timed): Cache {
    match t.op
    case Map(found, mappable) => MapSpec(c, found, mappable, t.at).1
    case Release(h) => ReleaseSpec(c, h)
    case Cleanup => CleanupSpec(c, t.at)
  }

  ghost function After(c: Cache, ops: seq<Timed>): Cache {
    if ops == [] then c else Apply(After(c, ops[..|ops| - 1]), ops[|ops| - 1])
  }

  function Empty(maxSize: nat): Cache {
    Cache(map[], 120 * SECOND, maxSize, multiset{}, 0)
  }

  /** Files change freely, but a key never stands for two contents. */
  ghost predicate KeyDeterminesContent(ops: seq<Timed>, content: FileKey -> seq<Byte>) {
    forall i :: 0 <= i < |ops| && ops[i].op.Map? && ops[i].op.found.Found? ==>
      ops[i].op.found.file.bytes == content(ops[i].op.found.file.key)
  }

  lemma MapKeeps(c: Cache, found: Opened, mappable: bool, now: nat, content: FileKey -> seq<Byte>)
    requires Inv(c, content) && (found.Found? ==> found.file.bytes == content(found.file.key))
    ensures Inv(MapSpec(c, found, mappable, now).1, content)
  {
    var c' := MapSpec(c, found, mappable, now).1;
    if c' != c {
      var key := found.file.key;
      forall h | h in c'.held ensures h.key in c'.entries && c'.entries[h.key].mapping == h.mapping {
        assert h in c.held || h == Held(key, c'.entries[key].mapping);
      }
    }
  }

  lemma ReleaseKeeps(c: Cache, h: Held, content: FileKey -> seq<Byte>)
    requires Inv(c, content)
    ensures Inv(ReleaseSpec(c, h), content)
  {
    assert forall g :: g in ReleaseSpec(c, h).held ==> g in c.held;
  }

  lemma CleanupKeeps(c: Cache, now: nat, content: FileKey -> seq<Byte>)
    requires Inv(c, content)
    ensures Inv(CleanupSpec(c, now), content)
  {
    forall h | h in c.held ensures h.key in CleanupSpec(c, now).entries {
      assert h.mapping.id == c.entries[h.key].mapping.id;
    }
  }

  lemma ApplyKeeps(c: Cache, t: Timed, content: FileKey -> seq<Byte>)
    requires Inv(c, content) && KeyDeterminesContent([t], content)
    ensures Inv(Apply(c, t), content)
  {
    assert [t][0] == t;
    match t.op
    case Map(found, mappable) => MapKeeps(c, found, mappable, t.at, content);
    case Release(h) => ReleaseKeeps(c, h, content);
    case Cleanup => CleanupKeeps(c, t.at, content);
  }

  lemma {:induction false} RunKeeps(maxSize: nat, ops: seq<Timed>, content: FileKey -> seq<Byte>)
    requires KeyDeterminesContent(ops, content)
    ensures Inv(After(Empty(maxSize), ops), content)
  {
    if ops != [] {
      var init, last := ops[..|ops| - 1], ops[|ops| - 1];
      RunKeeps(maxSize, init, content);
      ApplyKeeps(After(Empty(maxSize), init), last, content);
    }
  }

  /** Whatever happened before, a successful `map` shows the file's current bytes. */
  lemma {:induction false} MapShowsCurrentBytes(maxSize: nat, ops: seq<Timed>, content: FileKey -> seq<Byte>, file: File, mappable: bool, now: nat)
    requires KeyDeterminesContent(ops, content) && file.bytes == content(file.key)
    ensures var r := MapSpec(After(Empty(maxSize), ops), Found(file), mappable, now).0;
      r.Mapped? ==> r.mapping.bytes == file.bytes
  {
    RunKeeps(maxSize, ops, content);
  }

  /** After every run the mapping behind any handle that is out is still cached, all handles of one key are one
      mapping, a further `map` of that key shares it, and the expiry age stays below four minutes. */
  lemma {:induction false} HeldMappingsStay(maxSize: nat, ops: seq<Timed>, content: FileKey -> seq<Byte>, h: Held, h2: Held, now: nat)
    requires KeyDeterminesContent(ops, content)
    ensures var c := After(Empty(maxSize), ops);
      && c.expireAge < 240 * SECOND
      && (h in c.held ==>
           && h.key in c.entries && c.entries[h.key].mapping == h.mapping
           && h.key in CleanupSpec(c, now).entries
           && MapSpec(c, Found(File(h.key, content(h.key))), false, now).0 == Mapped(h.mapping))
      && (h in c.held && h2 in c.held && h.key == h2.key ==> h.mapping == h2.mapping)
  {
    RunKeeps(maxSize, ops, content);
    var c := After(Empty(maxSize), ops);
    if h in c.held {
      assert Referenced(c.held, c.entries[h.key].mapping);
    }
  }

  /** A cleanup drops an entry exactly when nobody holds its mapping and it was not used for the expiry age. */
  lemma CleanupDropsIff(c: Cache, now: nat, k: FileKey)
    requires k in c.entries
    ensures k !in CleanupSpec(c, now).entries <==>
      (forall h :: h in c.held ==> h.mapping.id != c.entries[k].mapping.id) && now - c.entries[k].lastUsed >= c.expireAge
    ensures k in CleanupSpec(c, now).entries ==> CleanupSpec(c, now).entries[k] == c.entries[k]
  {}

  /** Every successful map refreshes its entry: released at once, it still survives cleanups for the expiry age. */
  lemma MappedStaysFresh(c: Cache, file: File, mappable: bool, at: nat, now: nat)
    requires MapSpec(c, Found(file), mappable, at).0.Mapped? && now - at < c.expireAge
    ensures var c' := MapSpec(c, Found(file), mappable, at).1;
      && file.key in c'.entries && c'.entries[file.key].lastUsed == at
      && file.key in CleanupSpec(ReleaseSpec(c', Held(file.key, c'.entries[file.key].mapping)), now).entries
  {}

  /** A missing file, missing metadata and a failed mapping are told apart, and none of them changes the cache. */
  lemma MapFails(c: Cache, found: Opened, mappable: bool, now: nat)
    ensures MapSpec(c, found, mappable, now).0.FileNotFound? <==> found.Missing?
    ensures MapSpec(c, found, mappable, now).0.IoError? <==>
      found.NoMetadata? || (found.Found? && found.file.key !in c.entries && !mappable)
    ensures !MapSpec(c, found, mappable, now).0.Mapped? ==> MapSpec(c, found, mappable, now).1 == c
  {}

  // ----- The expiry age over runs. -----

  function Pow2(n: nat): nat {
    if n == 0 then 1 else 2 * Pow2(n - 1)
  }

  function Halved(age: nat, n: nat): nat {
    if n == 0 then age else Adapted(Halved(age, n - 1), true)
  }

  lemma {:induction false} HalvedFirst(age: nat, n: nat)
    ensures Halved(age, n + 1) == Halved(age / 2, n)
  {
    if n > 0 {
      HalvedFirst(age, n - 1);
    } else {
      assert Halved(age, 1) == Adapted(Halved(age, 0), true);
    }
  }

  /** Halving `n` times gives zero exactly when `age < 2^n`. */
  lemma {:induction false} HalvedIsZeroIff(age: nat, n: nat)
    ensures Halved(age, n) == 0 <==> age < Pow2(n)
    decreases n
  {
    if n > 0 {
      HalvedFirst(age, n - 1);
      HalvedIsZeroIff(age / 2, n - 1);
    }
  }

  lemma {:induction false} PowSum(m: nat, n: nat)
    ensures Pow2(m + n) == Pow2(m) * Pow2(n)
  {
    if n > 0 {
      PowSum(m, n - 1);
      assert Pow2(m + n) == 2 * Pow2(m + n - 1);
      assert Pow2(m) * Pow2(n) == 2 * (Pow2(m) * Pow2(n - 1));
    }
  }

  lemma {:induction false} PowMonotone(m: nat, n: nat)
    requires m <= n
    ensures Pow2(m) <= Pow2(n)
  {
    if m < n {
      PowMonotone(m, n - 1);
    }
  }

  lemma TwoMinutes()
    ensures Pow2(36) <= 120 * SECOND < Pow2(37)
  {
    assert Pow2(6) == 64;
    PowSum(6, 6);
    PowSum(12, 6);
    PowSum(18, 18);
  }

  /** Two minutes need 37 halvings. */
  lemma TwoMinutesHalved(n: nat)
    ensures 120 * SECOND < Pow2(n) <==> n >= 37
  {
    TwoMinutes();
    if n >= 37 {
      PowMonotone(37, n);
    } else {
      PowMonotone(n, 36);
    }
  }

  /** A file larger than the whole cache is mapped at `at` and held, and then `n` cleanups follow. */
  function Squeeze(file: File, at: nat, n: nat): seq<Timed> {
    [Timed(at, Map(Found(file), true))] + seq(n, i => Timed(at, Cleanup))
  }

  lemma {:induction false} SqueezedCache(maxSize: nat, file: File, at: nat, n: nat)
    requires file.key.size > maxSize
    ensures var c := After(Empty(maxSize), Squeeze(file, at, n));
      && c.expireAge == Halved(120 * SECOND, n) && c.maxSize == maxSize
      && c.entries == map[file.key := Entry(Mapping(0, file.bytes), at, file.key.size)]
      && c.held == multiset{Held(file.key, Mapping(0, file.bytes))}
  {
    var ops := Squeeze(file, at, n);
    var c := After(Empty(maxSize), ops);
    if n == 0 {
      assert ops[..0] == [];
    } else {
      SqueezedCache(maxSize, file, at, n - 1);
      assert ops[..|ops| - 1] == Squeeze(file, at, n - 1);
      var before := After(Empty(maxSize), ops[..|ops| - 1]);
      assert Held(file.key, Mapping(0, file.bytes)) in before.held;
      assert c.entries == before.entries;
      TotalOfOne(file.key, c.entries[file.key]);
    }
  }

  lemma TotalOfOne(k: FileKey, e: Entry)
    ensures Total(map[k := e], SizeOf()) == e.size
  {
    TotalMinus(map[k := e], k, SizeOf());
    assert map[k := e] - {k} == map[];
  }

  /** While a file larger than the cache is held, `n` cleanups bring the age to zero exactly when `n >= 37`. */
  lemma ExpiryReachesZeroIff(maxSize: nat, file: File, at: nat, n: nat)
    requires file.key.size > maxSize
    ensures After(Empty(maxSize), Squeeze(file, at, n)).expireAge == 0 <==> n >= 37
  {
    SqueezedCache(maxSize, file, at, n);
    HalvedIsZeroIff(120 * SECOND, n);
    TwoMinutesHalved(n);
  }

  /** Once the age is zero it stays zero over every further run, whatever is mapped, released or cleaned up. */
  lemma {:induction false} ZeroExpiryStays(c: Cache, ops: seq<Timed>)
    requires c.expireAge == 0
    ensures After(c, ops).expireAge == 0
  {
    if ops != [] {
      ZeroExpiryStays(c, ops[..|ops| - 1]);
      AgeStep(After(c, ops[..|ops| - 1]), ops[|ops| - 1]);
    }
  }

  ghost predicate Oversize(c: Cache, now: nat) {
    Total(CleanupSpec(c, now).entries, SizeOf()) > c.maxSize
  }

  /** Only cleanups change the age, and the size of what they leave decides how. */
  lemma AgeStep(c: Cache, t: Timed)
    ensures Apply(c, t).maxSize == c.maxSize
    ensures Apply(c, t).expireAge == if t.op.Cleanup? then Adapted(c.expireAge, Oversize(c, t.at)) else c.expireAge
  {}

  /** How a cleanup adapts the age: half when what remains is larger than the cache may be, double while it is below
      two minutes, and unchanged otherwise. */
  lemma CleanupAge(c: Cache, now: nat)
    ensures var c' := CleanupSpec(c, now);
      var size := Total(c'.entries, SizeOf());
      c'.expireAge ==
        if size > c.maxSize then c.expireAge / 2 else if c.expireAge < 120_000_000_000 then 2 * c.expireAge else c.expireAge
  {}

  /** The age reaches zero only by an oversize cleanup at an age of one nanosecond: every other step keeps it positive. */
  lemma ExpiryIsLostIff(c: Cache, t: Timed)
    requires c.expireAge > 0
    ensures Apply(c, t).expireAge == 0 <==>
      t.op.Cleanup? && c.expireAge == 1 && Oversize(c, t.at)
  {
    AgeStep(c, t);
  }

  function Cleanups(ops: seq<Timed>): nat {
    if ops == [] then 0 else Cleanups(ops[..|ops| - 1]) + (if ops[|ops| - 1].op.Cleanup? then 1 else 0)
  }

  /** No cleanup of the run leaves more than fits. */
  ghost predicate NoSqueeze(c: Cache, ops: seq<Timed>) {
    ops != [] ==>
      var init, last := ops[..|ops| - 1], ops[|ops| - 1];
      NoSqueeze(c, init) && (last.op.Cleanup? ==> !Oversize(After(c, init), last.at))
  }

  /** Without oversize cleanups a positive age doubles per cleanup until two minutes: after any mix of other
      operations with 37 cleanups it is back, and a zero age never is. */
  lemma {:induction false} ExpiryRecovers(c: Cache, ops: seq<Timed>)
    requires NoSqueeze(c, ops) && c.expireAge > 0
    ensures After(c, ops).expireAge >= Doubled(Cleanups(ops))
  {
    if ops != [] {
      var init := ops[..|ops| - 1];
      ExpiryRecovers(c, init);
      SmallStep(After(c, init), ops[|ops| - 1]);
      DoubledStep(After(c, init).expireAge, Cleanups(init));
    }
  }

  function Doubled(n: nat): nat {
    Min(120 * SECOND, Pow2(n))
  }

  lemma SmallStep(c: Cache, t: Timed)
    requires t.op.Cleanup? ==> !Oversize(c, t.at)
    ensures Apply(c, t).expireAge == if t.op.Cleanup? then Adapted(c.expireAge, false) else c.expireAge
  {
    AgeStep(c, t);
  }

  lemma DoubledStep(age: nat, n: nat)
    requires age >= Doubled(n)
    ensures Adapted(age, false) >= Doubled(n + 1)
  {
    assert Pow2(n + 1) == 2 * Pow2(n);
  }

  /** After a run with at least 37 cleanups, none of them oversize, the age is at least two minutes exactly when
      it was not zero at the start. */
  lemma ExpiryRecoversIff(c: Cache, ops: seq<Timed>)
    requires NoSqueeze(c, ops) && Cleanups(ops) >= 37
    ensures After(c, ops).expireAge >= 120 * SECOND <==> c.expireAge > 0
  {
    if c.expireAge > 0 {
      ExpiryRecovers(c, ops);
      TwoMinutesHalved(Cleanups(ops));
    } else {
      ZeroExpiryStays(c, ops);
    }
  }

  // ----- The object itself. -----

  class Store {
    var entries: map<FileKey, Entry>
    var expireAge: nat
    const maxSize: nat
    var held: multiset<Held>
    var nextId: nat

    ghost function View(): Cache
      reads this
    {
      Cache(entries, expireAge, maxSize, held, nextId)
    }

    constructor (maxSize: nat)
      ensures View() == Empty(maxSize)
    {
      this.maxSize := maxSize;
      entries, expireAge, held, nextId := map[], 120 * SECOND, multiset{}, 0;
    }

    method MapFile(found: Opened, mappable: bool, now: nat) returns (r: Outcome)
      modifies this
      ensures (r, View()) == MapSpec(old(View()), found, mappable, now)
    {
      if found.Missing? {
        return FileNotFound;
      }
      if found.NoMetadata? {
        return IoError;
      }
      var key := found.file.key;
      if key in entries {
        entries := entries[key := entries[key].(lastUsed := now)];
        held := held + multiset{Held(key, entries[key].mapping)};
        return Mapped(entries[key].mapping);
      }
      if !mappable {
        return IoError;
      }
      var mapping := Mapping(nextId, found.file.bytes);
      nextId := nextId + 1;
      entries := entries[key := Entry(mapping, now, key.size)];
      held := held + multiset{Held(key, mapping)};
      return Mapped(entries[key].mapping);
    }

    /** A connection drops its handle. */
    method Drop(h: Held)
      modifies this
      ensures View() == ReleaseSpec(old(View()), h)
    {
      held := held - multiset{h};
    }

    /** Evict what is neither referenced nor fresh, then adapt the expiry age to the remaining size. */
    method Cleanup(now: nat)
      modifies this
      ensures View() == CleanupSpec(old(View()), now)
    {
      entries := map k | k in entries && Retained(entries[k], now) :: entries[k];
      assert entries == CleanupSpec(old(View()), now).entries;
      var total := SizeOfAll();
      if total > maxSize {
        expireAge := expireAge / 2;
      } else if expireAge < 120 * SECOND {
        expireAge := expireAge * 2;
      }
    }

    predicate Retained(e: Entry, now: nat)
      reads this
    {
      Referenced(held, e.mapping) || now - e.lastUsed < expireAge
    }

    method SizeOfAll() returns (total: nat)
      ensures total == Total(entries, SizeOf())
    {
      total := 0;
      var todo := entries;
      while todo != map[]
        invariant total + Total(todo, SizeOf()) == Total(entries, SizeOf())
        decreases |todo|
      {
        var k :| k in todo;
        TotalMinus(todo, k, SizeOf());
        assert (todo - {k}).Keys == todo.Keys - {k};
        total := total + todo[k].size;
        todo := todo - {k};
      }
    }
  }
}
