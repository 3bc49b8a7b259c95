/**
 The arena string interner: one byte arena, one table of offsets, and buckets of ids by hash. The hash function is
 arbitrary and may collide.
 */
module Interner {
  import opened ByteStrings
  import opened Options

  type Hash = Bytes -> nat

  /** Where a string lies: a 32-bit start and a 16-bit length. */
  datatype Span = Span(start: nat, len: nat)

  type Buckets = map<nat, seq<nat>>

  const U32: nat := 0x1_0000_0000
  const U16: nat := 0x1_0000

  function AsU32(n: nat): nat { n % U32 }

  function AsU16(n: nat): nat { n % U16 }

  function Slice(arena: Bytes, span: Span): Option<Bytes> {
    if span.start + span.len <= |arena| then Some(arena[span.start..span.start + span.len]) else None
  }

  function GetBytes(arena: Bytes, offsets: seq<Span>, id: nat): Option<Bytes> {
    if id < |offsets| then Slice(arena, offsets[id]) else None
  }

  function Bucket(lookup: Buckets, h: nat): seq<nat> {
    if h in lookup then lookup[h] else []
  }

  function PushId(lookup: Buckets, h: nat, id: nat): Buckets {
    lookup[h := Bucket(lookup, h) + [id]]
  }

  /** The buckets of the first n strings. */
  function BucketsOf(hash: Hash, arena: Bytes, offsets: seq<Span>, n: nat): Buckets
    requires n <= |offsets|
  {
    if n == 0 then map[]
    else
      var before := BucketsOf(hash, arena, offsets, n - 1);
      match Slice(arena, offsets[n - 1])
      case None => before
      case Some(s) => PushId(before, hash(s), AsU32(n - 1))
  }

  /** The first id of the bucket whose bytes are the string's. */
  function FindIn(ids: seq<nat>, arena: Bytes, offsets: seq<Span>, s: Bytes): Option<nat> {
    if ids == [] then None
    else if GetBytes(arena, offsets, ids[0]) == Some(s) then Some(ids[0])
    else FindIn(ids[1..], arena, offsets, s)
  }

  datatype Table = Table(arena: Bytes, offsets: seq<Span>, lookup: Buckets)
  {
    function Get(id: nat): Option<Bytes> {
      GetBytes(arena, offsets, id)
    }

    function GetId(hash: Hash, s: Bytes): Option<nat> {
      FindIn(Bucket(lookup, hash(s)), arena, offsets, s)
    }

    /** The table and the id after interning. */
    function Intern(hash: Hash, s: Bytes): (Table, nat) {
      match GetId(hash, s)
      case Some(id) => (this, id)
      case None =>
        var id := AsU32(|offsets|);
        (Table(arena + s, offsets + [Span(AsU32(|arena|), AsU16(|s|))], PushId(lookup, hash(s), id)), id)
    }
  }

  const EMPTY: Table := Table([], [], map[])

  function Rebuilt(hash: Hash, arena: Bytes, offsets: seq<Span>): Table {
    Table(arena, offsets, BucketsOf(hash, arena, offsets, |offsets|))
  }

  // ---------------------------------------------------------------- what every run keeps

  /** The spans fit the machine types and lie inside the arena. */
  ghost predicate InBounds(t: Table) {
    forall i | 0 <= i < |t.offsets| ::
      t.offsets[i].start < U32 && t.offsets[i].len < U16 && t.offsets[i].start + t.offsets[i].len <= |t.arena|
  }

  /** Whatever was interned before and however long the new string is, no span ever leaves the arena. */
  lemma InternKeepsBounds(t: Table, hash: Hash, s: Bytes)
    requires InBounds(t)
    ensures InBounds(t.Intern(hash, s).0)
  {
    hide FindIn;
    assert AsU32(|t.arena|) <= |t.arena| && AsU16(|s|) <= |s|;
  }

  /** Ids stay valid: no later call changes what an id reads as. */
  lemma InternKeepsOldIds(t: Table, hash: Hash, s: Bytes, id: nat)
    requires InBounds(t) && id < |t.offsets|
    ensures t.Intern(hash, s).0.Get(id) == t.Get(id)
  {
    hide FindIn;
    var span := t.offsets[id];
    assert (t.arena + s)[span.start..span.start + span.len] == t.arena[span.start..span.start + span.len];
  }

  lemma {:induction false} FoundReadsAs(ids: seq<nat>, arena: Bytes, offsets: seq<Span>, s: Bytes)
    ensures FindIn(ids, arena, offsets, s).Some? ==>
              GetBytes(arena, offsets, FindIn(ids, arena, offsets, s).value) == Some(s)
    ensures FindIn(ids, arena, offsets, s).None? ==> forall id | id in ids :: GetBytes(arena, offsets, id) != Some(s)
    ensures FindIn(ids, arena, offsets, s).Some? ==> FindIn(ids, arena, offsets, s).value in ids
  {
    if ids != [] {
      FoundReadsAs(ids[1..], arena, offsets, s);
    }
  }

  /** A string of 64 KiB or more is never found, so each call stores it again. */
  lemma LongStringsAreNeverFound(t: Table, hash: Hash, s: Bytes)
    requires InBounds(t) && |s| >= U16
    ensures t.GetId(hash, s) == None
    ensures |t.Intern(hash, s).0.offsets| == |t.offsets| + 1
  {
    hide FindIn;
    FoundReadsAs(Bucket(t.lookup, hash(s)), t.arena, t.offsets, s);
  }

  /** While arena and table fit 32 bits, the returned id reads as the string exactly for strings under 64 KiB. */
  lemma InternedReadsBackExactly(t: Table, hash: Hash, s: Bytes)
    requires InBounds(t) && |t.arena| < U32 && |t.offsets| < U32
    ensures var (after, id) := t.Intern(hash, s); after.Get(id) == Some(s) <==> |s| < U16
  {
    hide FindIn;
    var (after, id) := t.Intern(hash, s);
    FoundReadsAs(Bucket(t.lookup, hash(s)), t.arena, t.offsets, s);
    if |s| >= U16 {
      LongStringsAreNeverFound(t, hash, s);
      InternKeepsBounds(t, hash, s);
    } else if t.GetId(hash, s).None? {
      assert after.arena[|t.arena|..|t.arena| + |s|] == s;
    }
  }

  // ---------------------------------------------------------------- refinement

  /** The strings in the order of their ids. */
  ghost function Strings(t: Table): (r: seq<Bytes>)
    requires InBounds(t)
    ensures |r| == |t.offsets|
    ensures forall i | 0 <= i < |r| :: t.Get(i) == Some(r[i])
  {
    seq(
      |t.offsets|,
      i requires 0 <= i < |t.offsets| => t.arena[t.offsets[i].start..t.offsets[i].start + t.offsets[i].len])
  }

  ghost predicate AllDifferent(r: seq<Bytes>) {
    forall i, j | 0 <= i < j < |r| :: r[i] != r[j]
  }

  /** No string twice, every id in the bucket of its hash, fewer ids than 32 bits can name. */
  ghost predicate Valid(t: Table, hash: Hash) {
    && InBounds(t)
    && |t.offsets| <= U32
    && AllDifferent(Strings(t))
    && t.lookup == BucketsOf(hash, t.arena, t.offsets, |t.offsets|)
  }

  lemma {:induction false} BucketHolds(hash: Hash, arena: Bytes, offsets: seq<Span>, n: nat, h: nat, id: nat)
    requires n <= |offsets| <= U32
    ensures id in Bucket(BucketsOf(hash, arena, offsets, n), h) <==>
            id < n && Slice(arena, offsets[id]).Some? && hash(Slice(arena, offsets[id]).value) == h
  {
    hide Slice, Bucket, PushId;
    if n == 0 {
      NothingHeld(h);
    } else {
      BucketHolds(hash, arena, offsets, n - 1, h, id);
      match Slice(arena, offsets[n - 1]) {
        case None =>
        case Some(s) => PushHolds(BucketsOf(hash, arena, offsets, n - 1), hash(s), n - 1, h, id);
      }
    }
  }

  lemma NothingHeld(h: nat)
    ensures Bucket(map[], h) == []
  {
  }

  lemma PushHolds(lookup: Buckets, h: nat, id: nat, other: nat, otherId: nat)
    ensures otherId in Bucket(PushId(lookup, h, id), other) <==>
            otherId in Bucket(lookup, other) || (other == h && otherId == id)
  {
  }

  /** A lookup finds a string exactly where it stands, and fails exactly when it was never interned. */
  lemma LookupIsExact(t: Table, hash: Hash, s: Bytes)
    requires Valid(t, hash)
    ensures forall i | 0 <= i < |t.offsets| :: t.GetId(hash, s) == Some(i) <==> Strings(t)[i] == s
    ensures t.GetId(hash, s) == None <==> s !in Strings(t)
  {
    hide BucketsOf, FindIn;
    var ids := Bucket(t.lookup, hash(s));
    FoundReadsAs(ids, t.arena, t.offsets, s);
    match t.GetId(hash, s)
    case Some(id) =>
      BucketHolds(hash, t.arena, t.offsets, |t.offsets|, hash(s), id);
      assert Strings(t)[id] == s;
    case None =>
      forall i | 0 <= i < |t.offsets| ensures Strings(t)[i] != s {
        BucketHolds(hash, t.arena, t.offsets, |t.offsets|, hash(s), i);
        assert t.Get(i) == Some(Strings(t)[i]);
      }
  }

  lemma {:induction false} BucketsAfterAppend(hash: Hash, t: Table, s: Bytes, span: Span, n: nat)
    requires InBounds(t) && n <= |t.offsets|
    ensures BucketsOf(hash, t.arena + s, t.offsets + [span], n) == BucketsOf(hash, t.arena, t.offsets, n)
  {
    if n > 0 {
      BucketsAfterAppend(hash, t, s, span, n - 1);
      var earlier := t.offsets[n - 1];
      assert (t.offsets + [span])[n - 1] == earlier;
      assert (t.arena + s)[earlier.start..earlier.start + earlier.len] ==
             t.arena[earlier.start..earlier.start + earlier.len];
    }
  }

  function IndexOf(r: seq<Bytes>, s: Bytes): (i: nat)
    ensures i <= |r| && (s in r <==> i < |r|)
    ensures i < |r| ==> r[i] == s
    ensures forall k | 0 <= k < i :: r[k] != s
  {
    if r == [] || r[0] == s then 0 else 1 + IndexOf(r[1..], s)
  }

  /** Interning as it is meant: the old id, or the next one. */
  function Added(r: seq<Bytes>, s: Bytes): seq<Bytes> {
    if s in r then r else r + [s]
  }

  lemma AppendedStrings(t: Table, hash: Hash, s: Bytes)
    requires InBounds(t) && |t.arena| < U32 && |s| < U16 && t.GetId(hash, s) == None
    ensures InBounds(t.Intern(hash, s).0)
    ensures Strings(t.Intern(hash, s).0) == Strings(t) + [s]
  {
    hide FindIn, Strings;
    InternKeepsBounds(t, hash, s);
    var after := t.Intern(hash, s).0;
    forall i | 0 <= i < |t.offsets| ensures Strings(after)[i] == Strings(t)[i] {
      InternKeepsOldIds(t, hash, s, i);
      assert after.Get(i) == Some(Strings(after)[i]) && t.Get(i) == Some(Strings(t)[i]);
    }
    assert after.arena[|t.arena|..|t.arena| + |s|] == s;
    assert after.Get(|t.offsets|) == Some(Strings(after)[|t.offsets|]);
  }

  lemma AppendedBuckets(t: Table, hash: Hash, s: Bytes)
    requires Valid(t, hash) && |t.arena| < U32 && |t.offsets| < U32 && |s| < U16 && t.GetId(hash, s) == None
    ensures var after := t.Intern(hash, s).0;
            after.lookup == BucketsOf(hash, after.arena, after.offsets, |after.offsets|)
  {
    hide FindIn, Strings, BucketsOf, AllDifferent;
    var after := t.Intern(hash, s).0;
    BucketsAfterAppend(hash, t, s, Span(AsU32(|t.arena|), AsU16(|s|)), |t.offsets|);
    assert after.arena[|t.arena|..|t.arena| + |s|] == s;
    BucketsLast(hash, after, s);
  }

  lemma AppendedIsDifferent(r: seq<Bytes>, s: Bytes)
    requires AllDifferent(r) && s !in r
    ensures AllDifferent(r + [s]) && IndexOf(r + [s], s) == |r|
  {
    hide IndexOf;
    var i := IndexOf(r + [s], s);
    assert (r + [s])[|r|] == s;
  }

  lemma IndexIs(r: seq<Bytes>, i: nat)
    requires AllDifferent(r) && i < |r|
    ensures IndexOf(r, r[i]) == i
  {
    hide IndexOf;
  }

  lemma InternedAnew(t: Table, hash: Hash, s: Bytes)
    requires t.GetId(hash, s) == None && |t.offsets| < U32
    ensures t.Intern(hash, s).1 == |t.offsets|
    ensures |t.Intern(hash, s).0.offsets| == |t.offsets| + 1
  {
    hide FindIn;
  }

  /** For every hash function, interning refines adding to a list without repetitions. */
  lemma InternRefines(t: Table, hash: Hash, s: Bytes)
    requires Valid(t, hash) && |t.arena| < U32 && |t.offsets| < U32 && |s| < U16
    ensures var (after, id) := t.Intern(hash, s);
            && Valid(after, hash)
            && Strings(after) == Added(Strings(t), s)
            && id == IndexOf(Strings(after), s)
  {
    hide FindIn, Strings, BucketsOf, IndexOf, AllDifferent, InBounds;
    LookupIsExact(t, hash, s);
    match t.GetId(hash, s)
    case Some(id) =>
      IndexIs(Strings(t), id);
    case None =>
      hide Table.Intern, Table.GetId;
      AppendedStrings(t, hash, s);
      AppendedBuckets(t, hash, s);
      AppendedIsDifferent(Strings(t), s);
      InternedAnew(t, hash, s);
  }

  lemma BucketsLast(hash: Hash, t: Table, s: Bytes)
    requires 0 < |t.offsets| <= U32 && t.Get(|t.offsets| - 1) == Some(s)
    ensures BucketsOf(hash, t.arena, t.offsets, |t.offsets|) ==
            PushId(BucketsOf(hash, t.arena, t.offsets, |t.offsets| - 1), hash(s), |t.offsets| - 1)
  {
    hide PushId;
  }

  /**
   Rebuilt from its arena and offsets, with whatever hash, a table answers as before; with the same hash it is the
   same.
   */
  lemma RebuiltAnswersAlike(t: Table, hash: Hash, other: Hash)
    requires Valid(t, hash)
    ensures Valid(Rebuilt(other, t.arena, t.offsets), other)
    ensures Strings(Rebuilt(other, t.arena, t.offsets)) == Strings(t)
    ensures Rebuilt(hash, t.arena, t.offsets) == t
    ensures forall s: Bytes :: Rebuilt(other, t.arena, t.offsets).GetId(other, s) == t.GetId(hash, s)
  {
    hide BucketsOf, FindIn;
    var rebuilt := Rebuilt(other, t.arena, t.offsets);
    forall s: Bytes ensures rebuilt.GetId(other, s) == t.GetId(hash, s) {
      LookupIsExact(t, hash, s);
      LookupIsExact(rebuilt, other, s);
      var i := IndexOf(Strings(t), s);
    }
  }

  // ---------------------------------------------------------------- whole runs

  function InternAll(hash: Hash, list: seq<Bytes>): Table {
    if list == [] then EMPTY else InternAll(hash, list[..|list| - 1]).Intern(hash, list[|list| - 1]).0
  }

  function FirstOccurrences(list: seq<Bytes>): seq<Bytes> {
    if list == [] then [] else Added(FirstOccurrences(list[..|list| - 1]), list[|list| - 1])
  }

  function SumLengths(list: seq<Bytes>): nat {
    if list == [] then 0 else SumLengths(list[..|list| - 1]) + |list[|list| - 1]|
  }

  /** Any run of short strings that fits: the table holds the first occurrences in order, for every hash function. */
  lemma {:induction false} RunKeepsFirstOccurrences(hash: Hash, list: seq<Bytes>)
    requires forall k | 0 <= k < |list| :: |list[k]| < U16
    requires SumLengths(list) < U32 && |list| < U32
    ensures var t := InternAll(hash, list);
            && Valid(t, hash)
            && Strings(t) == FirstOccurrences(list)
            && |t.arena| <= SumLengths(list) && |t.offsets| <= |list|
  {
    hide FindIn, Valid, Strings;
    if list == [] {
      EmptyIsValid(hash);
    } else {
      var before, s := list[..|list| - 1], list[|list| - 1];
      RunKeepsFirstOccurrences(hash, before);
      InternRefines(InternAll(hash, before), hash, s);
    }
  }

  lemma EmptyIsValid(hash: Hash)
    ensures Valid(EMPTY, hash) && Strings(EMPTY) == []
  {
  }

  /** The ids do not depend on the hash function. */
  lemma IdsDoNotDependOnTheHash(hash: Hash, other: Hash, list: seq<Bytes>, s: Bytes)
    requires forall k | 0 <= k < |list| :: |list[k]| < U16
    requires SumLengths(list) < U32 && |list| < U32 && |s| < U16
    ensures InternAll(hash, list).Intern(hash, s).1 == InternAll(other, list).Intern(other, s).1
    ensures InternAll(hash, list).GetId(hash, s) == InternAll(other, list).GetId(other, s)
  {
    hide FindIn, InternAll, FirstOccurrences, Strings;
    RunKeepsFirstOccurrences(hash, list);
    RunKeepsFirstOccurrences(other, list);
    InternRefines(InternAll(hash, list), hash, s);
    InternRefines(InternAll(other, list), other, s);
    LookupIsExact(InternAll(hash, list), hash, s);
    LookupIsExact(InternAll(other, list), other, s);
    var i := IndexOf(Strings(InternAll(hash, list)), s);
  }

  // ---------------------------------------------------------------- the interner itself

  class StringInterner {
    const hash: Hash
    var arena: Bytes
    var offsets: seq<Span>
    var lookup: Buckets

    constructor (hash: Hash)
      ensures this.hash == hash && Contents() == EMPTY
    {
      this.hash := hash;
      arena, offsets, lookup := [], [], map[];
    }

    /** Rebuilds the buckets from serialized parts. */
    constructor FromParts(hash: Hash, arena: Bytes, offsets: seq<Span>)
      ensures this.hash == hash && Contents() == Rebuilt(hash, arena, offsets)
    {
      this.hash := hash;
      this.arena, this.offsets, this.lookup := arena, offsets, map[];
      new;
      for idx := 0 to |offsets|
        invariant this.hash == hash && this.arena == arena && this.offsets == offsets
        invariant this.lookup == BucketsOf(hash, arena, offsets, idx)
      {
        match Slice(arena, offsets[idx]) {
          case None =>
          case Some(s) => this.lookup := PushId(this.lookup, hash(s), AsU32(idx));
        }
      }
    }

    ghost function Contents(): Table
      reads this
    {
      Table(arena, offsets, lookup)
    }

    method GetBytesId(s: Bytes) returns (id: Option<nat>)
      ensures id == Contents().GetId(hash, s)
    {
      var ids := Bucket(lookup, hash(s));
      assert ids[0..] == ids;
      for k := 0 to |ids|
        invariant FindIn(ids[k..], arena, offsets, s) == Contents().GetId(hash, s)
      {
        assert ids[k..][1..] == ids[k + 1..];
        if GetBytes(arena, offsets, ids[k]) == Some(s) {
          return Some(ids[k]);
        }
      }
      return None;
    }

    method InternBytes(s: Bytes) returns (id: nat)
      modifies this
      ensures (Contents(), id) == old(Contents()).Intern(hash, s)
    {
      hide FindIn;
      var found := GetBytesId(s);
      if found.Some? {
        return found.value;
      }
      var start, len := AsU32(|arena|), AsU16(|s|);
      arena := arena + s;
      id := AsU32(|offsets|);
      offsets := offsets + [Span(start, len)];
      lookup := PushId(lookup, hash(s), id);
    }

    method Clear()
      modifies this
      ensures Contents() == EMPTY
    {
      arena, offsets, lookup := [], [], map[];
    }
  }
}
