/**
 Registering worktrees from the union of their mount identities: in order of rank, each identity refreshes its own row,
 claims its destination, or is registered anew. The file system is given by an environment of functions.
 */
module WorktreeRebuild {
  import opened Options

  type Path = string

  datatype Json = Object(fields: map<string, string>) | Scalar(text: string)

  datatype Identity = Identity(
    dest: Option<Path>, sourceRepo: Option<Path>, backing: Option<Path>, rank: nat, phase: Option<string>)

  datatype Record = Record(
    id: string, path: Path, sourceRepo: Path, creationMode: string, createdAt: int, lastAccessedAt: Option<int>,
    metadata: Option<Json>)

  /** What the code asks of paths, mounts and backing stores. Two paths are the same place if their keys are equal. */
  datatype Env = Env(
    key: Path -> string, physical: Path -> Path, mayBeMounted: Path -> bool, backingExists: Path -> bool,
    isGrove: string -> bool, modeOf: Identity -> string, groveObject: Identity -> string)

  type Rows = map<string, Record>

  const RANK_DB: nat := 0
  const UNKNOWN := "unknown"

  /** INSERT OR REPLACE with a primary key on the id and a unique path: rows in the way are deleted. */
  function Registered(rows: Rows, rec: Record): Rows {
    (map id | id in rows && rows[id].path != rec.path :: rows[id])[rec.id := rec]
  }

  /** The grove object laid over the metadata; other keys of an object stay. */
  function MergedMetadata(existing: Option<Json>, grove: string): Json {
    match existing
    case Some(Object(fields)) => Object(fields["grove" := grove])
    case _ => Object(map["grove" := grove])
  }

  function UsableDest(idn: Identity): Option<Path> {
    match idn.dest
    case Some(p) => if p == "" || p == UNKNOWN then None else Some(p)
    case None => None
  }

  function DestOf(env: Env, idn: Identity): Path
    requires UsableDest(idn).Some?
  {
    env.physical(UsableDest(idn).value)
  }

  predicate Taken(env: Env, dests: seq<Path>, dest: Path) {
    exists k | 0 <= k < |dests| :: env.key(dests[k]) == env.key(dest)
  }

  predicate InRows(env: Env, rows: Rows, dest: Path) {
    exists id | id in rows :: env.key(rows[id].path) == env.key(dest)
  }

  function WithDest(env: Env, dests: seq<Path>, dest: Path): seq<Path> {
    if Taken(env, dests, dest) then dests else dests + [dest]
  }

  datatype Progress = Progress(rows: Rows, skip: seq<Path>, claimed: seq<Path>, registered: nat, alreadyTracked: nat)

  function Claim(env: Env, p: Progress, dest: Path): Progress {
    p.(skip := WithDest(env, p.skip, dest), claimed := WithDest(env, p.claimed, dest))
  }

  function SkipIfMounted(env: Env, p: Progress, dest: Path): Progress {
    if env.mayBeMounted(dest) then p.(skip := WithDest(env, p.skip, env.physical(dest))) else p
  }

  function Counted(p: Progress): Progress {
    p.(alreadyTracked := p.alreadyTracked + 1)
  }

  predicate IsAborted(idn: Identity) {
    idn.phase == Some("aborted")
  }

  predicate HasBacking(idn: Identity) {
    idn.backing.Some? && idn.backing.value != ""
  }

  function Refreshed(env: Env, rec: Record, idn: Identity): Record {
    if env.isGrove(rec.creationMode) && idn.rank > RANK_DB
    then rec.(metadata := Some(MergedMetadata(rec.metadata, env.groveObject(idn))))
    else rec
  }

  function NewRecord(env: Env, id: string, idn: Identity, dest: Path, now: int): Record {
    Record(
      id, dest, if idn.sourceRepo.Some? then idn.sourceRepo.value else UNKNOWN, env.modeOf(idn), now, Some(now),
      Some(Object(map["grove" := env.groveObject(idn)])))
  }

  /** An identity that has a row: the row is refreshed from a source above the database, the destination claimed. */
  function Track(env: Env, p: Progress, id: string, idn: Identity): Progress
    requires id in p.rows
  {
    var rec := p.rows[id];
    var rows :=
      if env.isGrove(rec.creationMode) && idn.rank > RANK_DB then Registered(p.rows, Refreshed(env, rec, idn))
      else p.rows;
    var q := p.(rows := rows);
    Counted(if UsableDest(idn).Some? then Claim(env, q, DestOf(env, idn)) else q)
  }

  /** An identity without a row, at its physical destination. */
  function Adopt(env: Env, recs: Rows, now: int, p: Progress, id: string, idn: Identity, dest: Path): Progress {
    if InRows(env, recs, dest) then Counted(Claim(env, p, dest))
    else if !HasBacking(idn) then Claim(env, p, dest)
    else if !env.backingExists(idn.backing.value) then SkipIfMounted(env, p, dest)
    else
      var q := Claim(env, p, dest);
      q.(rows := Registered(p.rows, NewRecord(env, id, idn, dest, now)), registered := p.registered + 1)
  }

  function Step(env: Env, recs: Rows, now: int, p: Progress, id: string, idn: Identity): Progress {
    var dest := UsableDest(idn);
    if dest.Some? && Taken(env, p.claimed, env.physical(dest.value)) && id !in p.rows then Counted(p)
    else if IsAborted(idn) then if dest.Some? then SkipIfMounted(env, p, dest.value) else p
    else if id in p.rows then Track(env, p, id, idn)
    else if dest.None? then p
    else Adopt(env, recs, now, p, id, idn, env.physical(dest.value))
  }

  type Ordered = seq<(string, Identity)>

  function Begin(rows: Rows): Progress {
    Progress(rows, [], [], 0, 0)
  }

  /** The first n identities, in order. */
  function After(env: Env, rows: Rows, now: int, ordered: Ordered, n: nat): Progress
    requires n <= |ordered|
  {
    if n == 0 then Begin(rows)
    else Step(env, rows, now, After(env, rows, now, ordered, n - 1), ordered[n - 1].0, ordered[n - 1].1)
  }

  // ---------------------------------------------------------------- the order

  predicate Before(a: string, b: string) {
    if a == "" then b != ""
    else b != "" && (a[0] < b[0] || (a[0] == b[0] && Before(a[1..], b[1..])))
  }

  lemma {:induction false} BeforeIsTotal(a: string, b: string)
    ensures a != b ==> (Before(a, b) <==> !Before(b, a))
    ensures !Before(a, a)
  {
    if a != "" {
      BeforeIsTotal(a[1..], a[1..]);
      if b != "" {
        BeforeIsTotal(a[1..], b[1..]);
        if a[0] == b[0] && a[1..] == b[1..] {
          assert a == [a[0]] + a[1..] && b == [b[0]] + b[1..];
        }
      }
    }
  }

  lemma {:induction false} BeforeIsTransitive(a: string, b: string, c: string)
    requires Before(a, b) && Before(b, c)
    ensures Before(a, c)
  {
    if a != "" && a[0] == b[0] && b[0] == c[0] {
      BeforeIsTransitive(a[1..], b[1..], c[1..]);
    }
  }

  /** Higher rank first, then the smaller id. */
  predicate Precedes(a: (string, Identity), b: (string, Identity)) {
    a.1.rank > b.1.rank || (a.1.rank == b.1.rank && Before(a.0, b.0))
  }

  /** The identities of the map, each once, in order. */
  ghost predicate IsOrderOf(ordered: Ordered, byId: map<string, Identity>) {
    && (forall k | 0 <= k < |ordered| :: ordered[k].0 in byId && byId[ordered[k].0] == ordered[k].1)
    && (forall id | id in byId :: exists k | 0 <= k < |ordered| :: ordered[k].0 == id)
    && (forall j, k | 0 <= j < k < |ordered| :: Precedes(ordered[j], ordered[k]))
  }

  ghost predicate DistinctIds(ordered: Ordered) {
    forall j, k | 0 <= j < k < |ordered| :: ordered[j].0 != ordered[k].0
  }

  lemma OrderHasDistinctIds(ordered: Ordered, byId: map<string, Identity>)
    requires IsOrderOf(ordered, byId)
    ensures DistinctIds(ordered)
  {
    forall j, k | 0 <= j < k < |ordered| ensures ordered[j].0 != ordered[k].0 {
      BeforeIsTotal(ordered[j].0, ordered[k].0);
      assert Precedes(ordered[j], ordered[k]);
    }
  }

  // ---------------------------------------------------------------- what every step keeps

  predicate RowsMatchIds(rows: Rows) {
    forall id | id in rows :: rows[id].id == id
  }

  predicate PathsDiffer(rows: Rows) {
    forall i, j | i in rows && j in rows && i != j :: rows[i].path != rows[j].path
  }

  /** Existing rows change in their metadata at most. */
  predicate KeepsRows(first: Rows, rows: Rows) {
    forall id | id in first :: id in rows && rows[id] == first[id].(metadata := rows[id].metadata)
  }

  /** Rows that were added have claimed places of their own, none the place of a first row. */
  predicate NewRowsApart(env: Env, first: Rows, rows: Rows, claimed: seq<Path>) {
    && (forall id | id in rows && id !in first ::
      Taken(env, claimed, rows[id].path) && !InRows(env, first, rows[id].path))
    && (forall i, j | i in rows && j in rows && i !in first && j !in first && i != j ::
          env.key(rows[i].path) != env.key(rows[j].path))
  }

  /** Every claimed place is on the skip list. */
  ghost predicate ClaimsAreSkipped(env: Env, p: Progress) {
    forall d: Path | Taken(env, p.claimed, d) :: Taken(env, p.skip, d)
  }

  ghost predicate Inv(env: Env, first: Rows, p: Progress) {
    && RowsMatchIds(p.rows) && PathsDiffer(p.rows)
    && KeepsRows(first, p.rows) && NewRowsApart(env, first, p.rows, p.claimed)
    && ClaimsAreSkipped(env, p)
  }

  lemma WithDestTakes(env: Env, dests: seq<Path>, dest: Path)
    ensures forall d: Path :: Taken(env, WithDest(env, dests, dest), d) <==>
              Taken(env, dests, d) || env.key(d) == env.key(dest)
  {
    var more := dests + [dest];
    forall d: Path ensures Taken(env, more, d) <==> Taken(env, dests, d) || env.key(d) == env.key(dest) {
      if Taken(env, dests, d) {
        var k :| 0 <= k < |dests| && env.key(dests[k]) == env.key(d);
        assert env.key(more[k]) == env.key(d);
      }
      if env.key(d) == env.key(dest) {
        assert env.key(more[|dests|]) == env.key(d);
      }
    }
  }

  lemma MoreClaimsKeepRowsApart(env: Env, first: Rows, rows: Rows, claimed: seq<Path>, more: seq<Path>)
    requires NewRowsApart(env, first, rows, claimed)
    requires forall d: Path | Taken(env, claimed, d) :: Taken(env, more, d)
    ensures NewRowsApart(env, first, rows, more)
  {
    hide Taken, InRows;
  }

  lemma ClaimKeepsInv(env: Env, first: Rows, p: Progress, dest: Path)
    requires Inv(env, first, p)
    ensures Inv(env, first, Claim(env, p, dest)) && Taken(env, Claim(env, p, dest).claimed, dest)
  {
    hide Taken, WithDest, RowsMatchIds, PathsDiffer, KeepsRows, NewRowsApart;
    WithDestTakes(env, p.skip, dest);
    WithDestTakes(env, p.claimed, dest);
    MoreClaimsKeepRowsApart(env, first, p.rows, p.claimed, Claim(env, p, dest).claimed);
  }

  lemma SkipKeepsInv(env: Env, first: Rows, p: Progress, dest: Path)
    requires Inv(env, first, p)
    ensures Inv(env, first, SkipIfMounted(env, p, dest))
  {
    hide Taken, WithDest, RowsMatchIds, PathsDiffer, KeepsRows, NewRowsApart;
    WithDestTakes(env, p.skip, env.physical(dest));
  }

  lemma CountKeepsInv(env: Env, first: Rows, p: Progress)
    requires Inv(env, first, p)
    ensures Inv(env, first, Counted(p))
  {
    hide Taken, RowsMatchIds, PathsDiffer, KeepsRows, NewRowsApart;
  }

  /** Writing a row back under its own id and path replaces it and deletes none. */
  lemma RegisteredInPlace(rows: Rows, id: string, rec: Record)
    requires RowsMatchIds(rows) && PathsDiffer(rows) && id in rows
    requires rec == rows[id].(metadata := rec.metadata)
    ensures Registered(rows, rec) == rows[id := rec]
  {
  }

  lemma RefreshKeepsRows(first: Rows, rows: Rows, id: string, rec: Record)
    requires RowsMatchIds(rows) && PathsDiffer(rows) && KeepsRows(first, rows)
    requires id in rows && rec == rows[id].(metadata := rec.metadata)
    ensures RowsMatchIds(rows[id := rec]) && PathsDiffer(rows[id := rec]) && KeepsRows(first, rows[id := rec])
  {
    forall i | i in first ensures rows[id := rec][i] == first[i].(metadata := rows[id := rec][i].metadata) {
      assert rows[i] == first[i].(metadata := rows[i].metadata);
    }
  }

  lemma RefreshKeepsApart(env: Env, first: Rows, rows: Rows, claimed: seq<Path>, id: string, rec: Record)
    requires NewRowsApart(env, first, rows, claimed) && id in rows && rec.path == rows[id].path
    ensures NewRowsApart(env, first, rows[id := rec], claimed)
  {
    hide Taken, InRows;
  }

  lemma RefreshKeepsInv(env: Env, first: Rows, p: Progress, id: string, rec: Record)
    requires Inv(env, first, p) && id in p.rows && rec == p.rows[id].(metadata := rec.metadata)
    ensures Inv(env, first, p.(rows := p.rows[id := rec]))
  {
    hide Taken, InRows, RowsMatchIds, PathsDiffer, KeepsRows, NewRowsApart;
    RefreshKeepsRows(first, p.rows, id, rec);
    RefreshKeepsApart(env, first, p.rows, p.claimed, id, rec);
  }

  lemma TrackKeepsInv(env: Env, first: Rows, p: Progress, id: string, idn: Identity)
    requires Inv(env, first, p) && id in p.rows
    ensures Inv(env, first, Track(env, p, id, idn))
  {
    hide Inv, Claim, Counted, UsableDest, Registered, RowsMatchIds, PathsDiffer;
    var rec := Refreshed(env, p.rows[id], idn);
    InvGivesRows(env, first, p);
    RegisteredInPlace(p.rows, id, rec);
    RefreshKeepsInv(env, first, p, id, rec);
    var q := if env.isGrove(p.rows[id].creationMode) && idn.rank > RANK_DB then p.(rows := p.rows[id := rec]) else p;
    match UsableDest(idn) {
      case Some(dest) =>
        ClaimKeepsInv(env, first, q, env.physical(dest));
        CountKeepsInv(env, first, Claim(env, q, env.physical(dest)));
      case None =>
        CountKeepsInv(env, first, q);
    }
  }

  lemma InvGivesRows(env: Env, first: Rows, p: Progress)
    requires Inv(env, first, p)
    ensures RowsMatchIds(p.rows) && PathsDiffer(p.rows) && KeepsRows(first, p.rows)
  {
    hide RowsMatchIds, PathsDiffer, KeepsRows;
  }

  /** A row at a place no row has deletes none. */
  lemma RegisteredAnew(env: Env, first: Rows, p: Progress, rec: Record)
    requires Inv(env, first, p) && rec.id !in p.rows
    requires !Taken(env, p.claimed, rec.path) && !InRows(env, first, rec.path)
    ensures Registered(p.rows, rec) == p.rows[rec.id := rec]
    ensures forall id | id in p.rows :: p.rows[id].path != rec.path
  {
    hide Taken, InRows;
    forall id | id in p.rows ensures p.rows[id].path != rec.path {
      if id in first {
        RowIsInRows(env, first, id);
        assert p.rows[id] == first[id].(metadata := p.rows[id].metadata);
      }
    }
  }

  lemma RowIsInRows(env: Env, rows: Rows, id: string)
    requires id in rows
    ensures InRows(env, rows, rows[id].path)
  {
  }

  lemma TakenAlike(env: Env, dests: seq<Path>, a: Path, b: Path)
    requires env.key(a) == env.key(b)
    ensures Taken(env, dests, a) <==> Taken(env, dests, b)
  {
  }

  lemma NewRowIsApart(env: Env, first: Rows, rows: Rows, claimed: seq<Path>, more: seq<Path>, rec: Record)
    requires NewRowsApart(env, first, rows, claimed) && NewRowsApart(env, first, rows, more)
    requires rec.id !in rows && !Taken(env, claimed, rec.path)
    requires !InRows(env, first, rec.path) && Taken(env, more, rec.path)
    ensures NewRowsApart(env, first, rows[rec.id := rec], more)
  {
    hide Taken, InRows;
    forall i | i in rows && i !in first ensures env.key(rows[i].path) != env.key(rec.path) {
      if env.key(rows[i].path) == env.key(rec.path) {
        TakenAlike(env, claimed, rows[i].path, rec.path);
      }
    }
  }

  lemma NewRowKeepsRows(first: Rows, rows: Rows, rec: Record)
    requires RowsMatchIds(rows) && PathsDiffer(rows) && KeepsRows(first, rows) && rec.id !in rows
    requires forall id | id in rows :: rows[id].path != rec.path
    ensures RowsMatchIds(rows[rec.id := rec]) && PathsDiffer(rows[rec.id := rec])
    ensures KeepsRows(first, rows[rec.id := rec])
  {
  }

  lemma AdoptKeepsApart(env: Env, first: Rows, p: Progress, q: Progress, rec: Record)
    requires Inv(env, first, p) && rec.id !in p.rows && q.rows == p.rows && Inv(env, first, q)
    requires !Taken(env, p.claimed, rec.path) && !InRows(env, first, rec.path) && Taken(env, q.claimed, rec.path)
    ensures Inv(env, first, q.(rows := p.rows[rec.id := rec]))
  {
    hide Taken, InRows, RowsMatchIds, PathsDiffer, KeepsRows, NewRowsApart, Registered;
    RegisteredAnew(env, first, p, rec);
    NewRowKeepsRows(first, p.rows, rec);
    NewRowIsApart(env, first, p.rows, p.claimed, q.claimed, rec);
  }

  lemma AdoptKeepsInv(env: Env, first: Rows, now: int, p: Progress, id: string, idn: Identity, dest: Path)
    requires Inv(env, first, p) && id !in p.rows && !Taken(env, p.claimed, dest)
    ensures Inv(env, first, Adopt(env, first, now, p, id, idn, dest))
  {
    hide Inv, Claim, Counted, SkipIfMounted, Registered, Taken, InRows, WithDest;
    ClaimKeepsInv(env, first, p, dest);
    CountKeepsInv(env, first, Claim(env, p, dest));
    SkipKeepsInv(env, first, p, dest);
    ClaimKeepsRows(env, p, dest);
    if !InRows(env, first, dest) {
      var rec := NewRecord(env, id, idn, dest, now);
      RegisteredAnew(env, first, p, rec);
      AdoptKeepsApart(env, first, p, Claim(env, p, dest), rec);
      var q := Claim(env, p, dest).(rows := p.rows[id := rec]);
      RegisteredCountKeepsInv(env, first, q, p.registered + 1);
    }
  }

  lemma ClaimKeepsRows(env: Env, p: Progress, dest: Path)
    ensures Claim(env, p, dest).rows == p.rows && Claim(env, p, dest).registered == p.registered
    ensures Claim(env, p, dest).alreadyTracked == p.alreadyTracked
  {
    hide WithDest;
  }

  lemma RegisteredCountKeepsInv(env: Env, first: Rows, p: Progress, n: nat)
    requires Inv(env, first, p)
    ensures Inv(env, first, p.(registered := n))
  {
    hide Taken, RowsMatchIds, PathsDiffer, KeepsRows, NewRowsApart;
  }

  lemma StepKeepsInv(env: Env, first: Rows, now: int, p: Progress, id: string, idn: Identity)
    requires Inv(env, first, p)
    ensures Inv(env, first, Step(env, first, now, p, id, idn))
  {
    hide Inv, Counted, SkipIfMounted, Track, Adopt, Taken, UsableDest, IsAborted;
    CountKeepsInv(env, first, p);
    var dest := UsableDest(idn);
    if dest.Some? {
      SkipKeepsInv(env, first, p, dest.value);
    }
    if id in p.rows {
      TrackKeepsInv(env, first, p, id, idn);
    } else if dest.Some? && !Taken(env, p.claimed, env.physical(dest.value)) {
      AdoptKeepsInv(env, first, now, p, id, idn, env.physical(dest.value));
    }
  }

  predicate IsDatabase(rows: Rows) {
    RowsMatchIds(rows) && PathsDiffer(rows)
  }

  lemma BeginIsInv(env: Env, rows: Rows)
    requires IsDatabase(rows)
    ensures Inv(env, rows, Begin(rows))
  {
  }

  lemma {:induction false} RunKeepsInv(env: Env, rows: Rows, now: int, ordered: Ordered, n: nat)
    requires IsDatabase(rows) && n <= |ordered|
    ensures Inv(env, rows, After(env, rows, now, ordered, n))
  {
    hide Inv, Step, IsDatabase;
    if n == 0 {
      BeginIsInv(env, rows);
    } else {
      RunKeepsInv(env, rows, now, ordered, n - 1);
      StepKeepsInv(env, rows, now, After(env, rows, now, ordered, n - 1), ordered[n - 1].0, ordered[n - 1].1);
    }
  }

  // ---------------------------------------------------------------- the outcome in closed form

  /** The identity claims its destination, unless an earlier one has the place already. */
  predicate IsClaimant(env: Env, first: Rows, id: string, idn: Identity) {
    && UsableDest(idn).Some? && !IsAborted(idn)
    && (id in first || InRows(env, first, DestOf(env, idn)) || !HasBacking(idn) || env.backingExists(idn.backing.value))
  }

  predicate ClaimsPlace(env: Env, first: Rows, who: (string, Identity), dest: Path) {
    IsClaimant(env, first, who.0, who.1) && env.key(DestOf(env, who.1)) == env.key(dest)
  }

  predicate ClaimedByFirst(env: Env, first: Rows, ordered: Ordered, n: nat, dest: Path)
    requires n <= |ordered|
  {
    exists k | 0 <= k < n :: ClaimsPlace(env, first, ordered[k], dest)
  }

  /** Whether the identity at k gets a row of its own. */
  predicate IsRegistered(env: Env, first: Rows, ordered: Ordered, k: nat)
    requires k < |ordered|
  {
    var (id, idn) := ordered[k];
    && id !in first
    && IsClaimant(env, first, id, idn) && HasBacking(idn) && env.backingExists(idn.backing.value)
    && !InRows(env, first, DestOf(env, idn))
    && !ClaimedByFirst(env, first, ordered, k, DestOf(env, idn))
  }

  /** A step changes no row but its own identity's. */
  lemma StepTouchesOwnRow(env: Env, first: Rows, now: int, p: Progress, id: string, idn: Identity, other: string)
    requires Inv(env, first, p) && other != id
    ensures var q := Step(env, first, now, p, id, idn);
            (other in q.rows <==> other in p.rows) && (other in p.rows ==> q.rows[other] == p.rows[other])
  {
    hide Inv, Claim, Counted, SkipIfMounted, Registered, Taken, InRows, WithDest, RowsMatchIds, PathsDiffer;
    RowsOfStep(env, first, now, p, id, idn);
  }

  /** What a step does to the rows. */
  lemma RowsOfStep(env: Env, first: Rows, now: int, p: Progress, id: string, idn: Identity)
    requires Inv(env, first, p)
    ensures Step(env, first, now, p, id, idn).rows ==
            if id in p.rows then
              if IsAborted(idn) then p.rows else p.rows[id := Refreshed(env, p.rows[id], idn)]
            else if AdoptsNow(env, first, p, idn) then
              p.rows[id := NewRecord(env, id, idn, DestOf(env, idn), now)]
            else p.rows
  {
    hide Inv, Claim, Counted, SkipIfMounted, Registered, Taken, InRows, RowsMatchIds, PathsDiffer;
    RowsUnderCounting(env, p);
    if UsableDest(idn).Some? {
      ClaimKeepsRows(env, p, DestOf(env, idn));
      SkipKeepsRows(env, p, DestOf(env, idn));
      SkipKeepsRows(env, p, UsableDest(idn).value);
      RowsUnderCounting(env, Claim(env, p, DestOf(env, idn)));
    }
    if id in p.rows {
      TrackRows(env, first, p, id, idn);
    } else if AdoptsNow(env, first, p, idn) {
      RegisteredAnew(env, first, p, NewRecord(env, id, idn, DestOf(env, idn), now));
    }
  }

  predicate AdoptsNow(env: Env, first: Rows, p: Progress, idn: Identity) {
    && UsableDest(idn).Some? && !IsAborted(idn)
    && !Taken(env, p.claimed, DestOf(env, idn)) && !InRows(env, first, DestOf(env, idn))
    && HasBacking(idn) && env.backingExists(idn.backing.value)
  }

  lemma RowsUnderCounting(env: Env, p: Progress)
    ensures Counted(p).rows == p.rows && Counted(p).claimed == p.claimed && Counted(p).registered == p.registered
    ensures Counted(p).alreadyTracked == p.alreadyTracked + 1
  {
  }

  lemma SkipKeepsRows(env: Env, p: Progress, dest: Path)
    ensures SkipIfMounted(env, p, dest).rows == p.rows && SkipIfMounted(env, p, dest).claimed == p.claimed
    ensures SkipIfMounted(env, p, dest).registered == p.registered
    ensures SkipIfMounted(env, p, dest).alreadyTracked == p.alreadyTracked
  {
    hide WithDest;
  }

  lemma TrackRows(env: Env, first: Rows, p: Progress, id: string, idn: Identity)
    requires Inv(env, first, p) && id in p.rows
    ensures Track(env, p, id, idn).rows == p.rows[id := Refreshed(env, p.rows[id], idn)]
    ensures Track(env, p, id, idn).claimed ==
            if UsableDest(idn).Some? then WithDest(env, p.claimed, DestOf(env, idn)) else p.claimed
    ensures Track(env, p, id, idn).registered == p.registered
    ensures Track(env, p, id, idn).alreadyTracked == p.alreadyTracked + 1
  {
    hide Inv, Registered, Taken, InRows, RowsMatchIds, PathsDiffer, WithDest;
    InvGivesRows(env, first, p);
    RegisteredInPlace(p.rows, id, Refreshed(env, p.rows[id], idn));
  }

  /** What a step does to the claimed places. */
  lemma ClaimsOfStep(env: Env, first: Rows, now: int, p: Progress, id: string, idn: Identity, dest: Path)
    requires Inv(env, first, p) && (id in p.rows <==> id in first)
    ensures Taken(env, Step(env, first, now, p, id, idn).claimed, dest) <==>
            Taken(env, p.claimed, dest) || ClaimsPlace(env, first, (id, idn), dest)
  {
    hide Inv, SkipIfMounted, Registered, Taken, InRows, WithDest, UsableDest, IsAborted, HasBacking;
    if UsableDest(idn).Some? {
      var own := DestOf(env, idn);
      WithDestTakes(env, p.claimed, own);
      SkipKeepsRows(env, p, own);
      SkipKeepsRows(env, p, UsableDest(idn).value);
      if env.key(own) == env.key(dest) {
        TakenAlike(env, p.claimed, own, dest);
      }
    }
    if id in p.rows {
      TrackRows(env, first, p, id, idn);
    }
  }

  /** The rows after any number of identities, row by row. */
  lemma {:induction false} RowsInClosedForm(env: Env, rows: Rows, now: int, ordered: Ordered, n: nat)
    requires IsDatabase(rows) && DistinctIds(ordered) && n <= |ordered|
    ensures var db := After(env, rows, now, ordered, n).rows;
            && (forall k | 0 <= k < n :: var (id, idn) := ordered[k];
                  if id in rows then
                    id in db && db[id] == if IsAborted(idn) then rows[id] else Refreshed(env, rows[id], idn)
                  else
                    && (id in db <==> IsRegistered(env, rows, ordered, k))
                    && (id in db ==> db[id] == NewRecord(env, id, idn, DestOf(env, idn), now)))
            && (forall id | id in rows && (forall k | 0 <= k < n :: ordered[k].0 != id) ::
              id in db && db[id] == rows[id])
            && (forall id | id in db && id !in rows :: exists k | 0 <= k < n :: ordered[k].0 == id)
    ensures forall dest: Path ::
              Taken(env, After(env, rows, now, ordered, n).claimed, dest) <==>
                ClaimedByFirst(env, rows, ordered, n, dest)
  {
    hide IsDatabase, Step, Taken, IsClaimant, ClaimsPlace, Refreshed, NewRecord, Inv, InRows, HasBacking, IsAborted,
         UsableDest;
    if n > 0 {
      var m := n - 1;
      RowsInClosedForm(env, rows, now, ordered, m);
      RunKeepsInv(env, rows, now, ordered, m);
      var p, q := After(env, rows, now, ordered, m), After(env, rows, now, ordered, n);
      var (id, idn) := ordered[m];
      assert id in p.rows <==> id in rows;
      RowsOfStep(env, rows, now, p, id, idn);
      forall dest: Path ensures Taken(env, q.claimed, dest) <==> ClaimedByFirst(env, rows, ordered, n, dest) {
        ClaimsOfStep(env, rows, now, p, id, idn, dest);
        assert ordered[m] == (id, idn);
      }
      if id !in rows {
        AdoptsExactly(env, rows, p, ordered, m);
      }
    } else {
      NothingClaimed(env);
    }
  }

  lemma NothingClaimed(env: Env)
    ensures forall dest: Path :: !Taken(env, [], dest)
  {
  }

  lemma AdoptsExactly(env: Env, first: Rows, p: Progress, ordered: Ordered, k: nat)
    requires k < |ordered| && ordered[k].0 !in first
    requires forall dest: Path :: Taken(env, p.claimed, dest) <==> ClaimedByFirst(env, first, ordered, k, dest)
    ensures AdoptsNow(env, first, p, ordered[k].1) <==> IsRegistered(env, first, ordered, k)
  {
    hide Taken, InRows, ClaimedByFirst, UsableDest, IsAborted;
  }

  predicate HoldsKey(rec: Record, key: string, value: string) {
    match rec.metadata
    case Some(Object(fields)) => key in fields && fields[key] == value
    case _ => false
  }

  lemma RefreshKeepsKey(env: Env, rec: Record, idn: Identity, key: string, value: string)
    requires key != "grove" && HoldsKey(rec, key, value)
    ensures HoldsKey(Refreshed(env, rec, idn), key, value)
  {
  }

  /** What was recorded in a row's metadata when it was created survives, but for the refreshed grove object. */
  lemma CreateTimeKeysSurvive(env: Env, rows: Rows, now: int, ordered: Ordered, id: string, key: string, value: string)
    requires IsDatabase(rows) && DistinctIds(ordered)
    requires id in rows && key != "grove" && HoldsKey(rows[id], key, value)
    ensures var db := After(env, rows, now, ordered, |ordered|).rows; id in db && HoldsKey(db[id], key, value)
  {
    hide After, IsDatabase, Refreshed, HoldsKey, IsAborted, DistinctIds, NewRecord, IsRegistered, Taken, ClaimedByFirst;
    RowsInClosedForm(env, rows, now, ordered, |ordered|);
    if k :| 0 <= k < |ordered| && ordered[k].0 == id {
      RefreshKeepsKey(env, rows[id], ordered[k].1, key, value);
    }
  }

  /** A claimed place belongs to an identity that was not aborted, and is skipped by the scan. */
  lemma ClaimsAreLiveAndSkipped(env: Env, rows: Rows, now: int, ordered: Ordered, n: nat, dest: Path)
    requires IsDatabase(rows) && DistinctIds(ordered) && n <= |ordered|
    requires Taken(env, After(env, rows, now, ordered, n).claimed, dest)
    ensures exists k | 0 <= k < n ::
              !IsAborted(ordered[k].1) && UsableDest(ordered[k].1).Some? &&
                env.key(DestOf(env, ordered[k].1)) == env.key(dest)
    ensures Taken(env, After(env, rows, now, ordered, n).skip, dest)
  {
    hide After, Taken, InRows, IsDatabase, IsAborted, UsableDest, HasBacking, RowsMatchIds, PathsDiffer, KeepsRows,
         NewRowsApart;
    RowsInClosedForm(env, rows, now, ordered, n);
    RunKeepsInv(env, rows, now, ordered, n);
    var k :| 0 <= k < n && ClaimsPlace(env, rows, ordered[k], dest);
  }

  /** No row is lost or moved, and a new row stands at a place no other row has. */
  lemma RebuildKeepsRowsApart(env: Env, rows: Rows, now: int, ordered: Ordered)
    requires IsDatabase(rows)
    ensures var db := After(env, rows, now, ordered, |ordered|).rows;
            && (forall id | id in rows ::
                  id in db && db[id].path == rows[id].path && db[id].creationMode == rows[id].creationMode)
            && (forall i, j | i in db && j in db && i != j && j !in rows :: env.key(db[i].path) != env.key(db[j].path))
  {
    hide After, Taken, InRows, IsDatabase, RowsMatchIds, PathsDiffer;
    RunKeepsInv(env, rows, now, ordered, |ordered|);
    var db := After(env, rows, now, ordered, |ordered|).rows;
    forall i, j | i in db && j in db && i != j && j !in rows ensures env.key(db[i].path) != env.key(db[j].path) {
      if i in rows && env.key(db[i].path) == env.key(db[j].path) {
        SamePlaceIsInRows(env, rows, i, db[j].path);
      }
    }
  }

  lemma SamePlaceIsInRows(env: Env, rows: Rows, id: string, dest: Path)
    requires id in rows && env.key(rows[id].path) == env.key(dest)
    ensures InRows(env, rows, dest)
  {
  }

  /**
   An identity with a live backing goes without a row only where a row or a claim of at least its rank has the place.
   */
  lemma RankDecides(env: Env, byId: map<string, Identity>, rows: Rows, now: int, ordered: Ordered, k: nat)
    requires IsDatabase(rows) && IsOrderOf(ordered, byId) && k < |ordered| && ordered[k].0 !in rows
    requires var idn := ordered[k].1;
             UsableDest(idn).Some? && !IsAborted(idn) && HasBacking(idn) && env.backingExists(idn.backing.value)
    ensures var dest := DestOf(env, ordered[k].1);
            ordered[k].0 !in After(env, rows, now, ordered, |ordered|).rows <==>
            || InRows(env, rows, dest)
            || exists j | 0 <= j < k ::
                 ordered[j].1.rank >= ordered[k].1.rank && ClaimsPlace(env, rows, ordered[j], dest)
  {
    hide After, InRows, IsDatabase, IsAborted, UsableDest, HasBacking, IsClaimant, ClaimsPlace, Before;
    OrderHasDistinctIds(ordered, byId);
    RowsInClosedForm(env, rows, now, ordered, |ordered|);
    assert forall j | 0 <= j < k :: Precedes(ordered[j], ordered[k]);
    LiveIsClaimant(env, rows, ordered[k].0, ordered[k].1);
  }

  lemma StandsInFront(byId: map<string, Identity>, ordered: Ordered, k: nat, other: string)
    requires IsOrderOf(ordered, byId) && k < |ordered| && other in byId
    ensures var id := ordered[k].0;
            (exists j | 0 <= j < k :: ordered[j].0 == other) <==>
            !(byId[other].rank < byId[id].rank || (byId[other].rank == byId[id].rank && !Before(other, id)))
  {
    hide Before;
    var j :| 0 <= j < |ordered| && ordered[j].0 == other;
    OrderHasDistinctIds(ordered, byId);
    BeforeIsTotal(other, ordered[k].0);
    BeforeIsTotal(other, other);
    assert j < k ==> Precedes(ordered[j], ordered[k]);
    assert k < j ==> Precedes(ordered[k], ordered[j]);
  }

  /**
   Whatever order the map gives, a new place goes to the identity of highest rank that claims it, and among equals to
   the one with the smallest id.
   */
  lemma PlaceGoesToTheBest(
    env: Env, byId: map<string, Identity>, rows: Rows, now: int, ordered: Ordered, id: string)
    requires IsDatabase(rows) && IsOrderOf(ordered, byId) && id in byId && id !in rows
    requires var idn := byId[id];
             UsableDest(idn).Some? && !IsAborted(idn) && HasBacking(idn) && env.backingExists(idn.backing.value)
    ensures var (idn, dest) := (byId[id], DestOf(env, byId[id]));
            id in After(env, rows, now, ordered, |ordered|).rows <==>
            && !InRows(env, rows, dest)
            && forall other | other in byId && ClaimsPlace(env, rows, (other, byId[other]), dest) ::
                 byId[other].rank < idn.rank || (byId[other].rank == idn.rank && !Before(other, id))
  {
    hide After, InRows, IsDatabase, IsAborted, UsableDest, HasBacking, IsClaimant, ClaimsPlace, Before;
    var dest := DestOf(env, byId[id]);
    var k :| 0 <= k < |ordered| && ordered[k].0 == id;
    RankDecides(env, byId, rows, now, ordered, k);
    forall other | other in byId && ClaimsPlace(env, rows, (other, byId[other]), dest)
      ensures (exists j | 0 <= j < k :: ordered[j].0 == other) <==>
              !(byId[other].rank < byId[id].rank || (byId[other].rank == byId[id].rank && !Before(other, id)))
    {
      StandsInFront(byId, ordered, k, other);
    }
    assert forall j | 0 <= j < k :: ordered[j] == (ordered[j].0, byId[ordered[j].0]);
  }

  /** Ids compare as in a dictionary. */
  lemma {:induction false} DictionaryOrder(front: string, a: string, b: string)
    ensures a != "" && b != "" && a[0] < b[0] ==> Before(front + a, front + b)
    ensures a != "" ==> Before(front, front + a)
  {
    if front == "" {
      assert "" + a == a && "" + b == b;
    } else {
      assert (front + a)[1..] == front[1..] + a && (front + b)[1..] == front[1..] + b;
      DictionaryOrder(front[1..], a, b);
    }
  }

  lemma LiveIsClaimant(env: Env, rows: Rows, id: string, idn: Identity)
    requires UsableDest(idn).Some? && !IsAborted(idn) && HasBacking(idn) && env.backingExists(idn.backing.value)
    ensures IsClaimant(env, rows, id, idn)
  {
  }

  /** The counters: one new row for each registration, and no identity is counted twice. */
  lemma {:induction false} CountersAddUp(env: Env, rows: Rows, now: int, ordered: Ordered, n: nat)
    requires IsDatabase(rows) && DistinctIds(ordered) && n <= |ordered|
    ensures var p := After(env, rows, now, ordered, n);
            |p.rows| == |rows| + p.registered && p.registered + p.alreadyTracked <= n
  {
    hide IsDatabase, Step, Inv;
    if n > 0 {
      CountersAddUp(env, rows, now, ordered, n - 1);
      RunKeepsInv(env, rows, now, ordered, n - 1);
      CountersOfStep(env, rows, now, After(env, rows, now, ordered, n - 1), ordered[n - 1].0, ordered[n - 1].1);
    }
  }

  lemma CountersOfStep(env: Env, first: Rows, now: int, p: Progress, id: string, idn: Identity)
    requires Inv(env, first, p)
    ensures var q := Step(env, first, now, p, id, idn);
            && |q.rows| + p.registered == |p.rows| + q.registered
            && p.registered + p.alreadyTracked <= q.registered + q.alreadyTracked <= p.registered + p.alreadyTracked + 1
  {
    hide Inv, SkipIfMounted, Registered, Taken, InRows, WithDest, UsableDest, IsAborted, HasBacking, Refreshed,
         NewRecord;
    RowsOfStep(env, first, now, p, id, idn);
    if UsableDest(idn).Some? {
      SkipKeepsRows(env, p, DestOf(env, idn));
      SkipKeepsRows(env, p, UsableDest(idn).value);
    }
    if id in p.rows {
      TrackRows(env, first, p, id, idn);
      OneMoreKey(p.rows, id, Refreshed(env, p.rows[id], idn));
    } else if UsableDest(idn).Some? {
      OneMoreKey(p.rows, id, NewRecord(env, id, idn, DestOf(env, idn), now));
    }
  }

  lemma OneMoreKey(rows: Rows, id: string, rec: Record)
    ensures |rows[id := rec]| == |rows| + if id in rows then 0 else 1
  {
    assert rows[id := rec].Keys == rows.Keys + {id};
    assert |rows.Keys| == |rows| && |rows[id := rec].Keys| == |rows[id := rec]|;
  }

  // ---------------------------------------------------------------- what becomes of each identity

  /**
   A row whose identity was not aborted carries the identity's grove object if it is a grove row and the identity comes
   from a source above the database; every other row stays as it was.
   */
  lemma RefreshReachesTheRow(env: Env, rows: Rows, now: int, ordered: Ordered, k: nat)
    requires IsDatabase(rows) && DistinctIds(ordered) && k < |ordered| && ordered[k].0 in rows
    ensures var (db, (id, idn)) := (After(env, rows, now, ordered, |ordered|).rows, ordered[k]);
            && id in db
            && if idn.phase != Some("aborted") && env.isGrove(rows[id].creationMode) && idn.rank > 0 then
                 && HoldsKey(db[id], "grove", env.groveObject(idn))
                 && db[id].(metadata := None) == rows[id].(metadata := None)
               else db[id] == rows[id]
  {
    hide After, IsDatabase, DistinctIds, NewRecord, IsRegistered, Taken, ClaimedByFirst;
    RowsInClosedForm(env, rows, now, ordered, |ordered|);
  }

  /** A new row belongs to a live identity with a place and a backing of its own, and holds what that identity says. */
  lemma NewRowIsItsIdentity(env: Env, rows: Rows, now: int, ordered: Ordered, k: nat)
    requires IsDatabase(rows) && DistinctIds(ordered) && k < |ordered| && ordered[k].0 !in rows
    requires ordered[k].0 in After(env, rows, now, ordered, |ordered|).rows
    ensures var (db, (id, idn)) := (After(env, rows, now, ordered, |ordered|).rows, ordered[k]);
            && idn.dest.Some? && idn.dest.value != "" && idn.dest.value != "unknown" && idn.phase != Some("aborted")
            && idn.backing.Some? && idn.backing.value != "" && env.backingExists(idn.backing.value)
            && db[id] == Record(
                 id, env.physical(idn.dest.value),
                 match idn.sourceRepo case Some(repo) => repo case None => "unknown",
                 env.modeOf(idn), now, Some(now), Some(Object(map["grove" := env.groveObject(idn)])))
  {
    hide After, IsDatabase, DistinctIds, Refreshed, Taken, ClaimedByFirst, InRows;
    RowsInClosedForm(env, rows, now, ordered, |ordered|);
  }

  /** The identity at k is counted as tracked: it has a row and is live, or its place is taken by another. */
  predicate CountsAsTracked(env: Env, first: Rows, ordered: Ordered, k: nat)
    requires k < |ordered|
  {
    var (id, idn) := ordered[k];
    if id in first then !IsAborted(idn)
    else
      UsableDest(idn).Some? &&
      (|| ClaimedByFirst(env, first, ordered, k, DestOf(env, idn))
       || (!IsAborted(idn) && InRows(env, first, DestOf(env, idn))))
  }

  function TrackedCount(env: Env, first: Rows, ordered: Ordered, n: nat): nat
    requires n <= |ordered|
  {
    if n == 0 then 0
    else TrackedCount(env, first, ordered, n - 1) + if CountsAsTracked(env, first, ordered, n - 1) then 1 else 0
  }

  lemma TrackedOfStep(env: Env, first: Rows, now: int, p: Progress, id: string, idn: Identity)
    requires Inv(env, first, p)
    ensures Step(env, first, now, p, id, idn).alreadyTracked == p.alreadyTracked +
            if id in p.rows then if IsAborted(idn) then 0 else 1
            else if UsableDest(idn).None? then 0
            else if Taken(env, p.claimed, DestOf(env, idn)) || (!IsAborted(idn) && InRows(env, first, DestOf(env, idn)))
            then 1 else 0
  {
    hide Inv, SkipIfMounted, Registered, Taken, InRows, WithDest, UsableDest, IsAborted, HasBacking, Refreshed,
         NewRecord;
    if UsableDest(idn).Some? {
      SkipKeepsRows(env, p, DestOf(env, idn));
      SkipKeepsRows(env, p, UsableDest(idn).value);
    }
    if id in p.rows {
      TrackRows(env, first, p, id, idn);
    }
  }

  /** The identities reported as already tracked are exactly those. */
  lemma {:induction false} TrackedInClosedForm(env: Env, rows: Rows, now: int, ordered: Ordered, n: nat)
    requires IsDatabase(rows) && DistinctIds(ordered) && n <= |ordered|
    ensures After(env, rows, now, ordered, n).alreadyTracked == TrackedCount(env, rows, ordered, n)
  {
    hide IsDatabase, Step, Inv, Taken, InRows, UsableDest, IsAborted, ClaimedByFirst, IsRegistered, Refreshed,
         NewRecord;
    if n > 0 {
      TrackedInClosedForm(env, rows, now, ordered, n - 1);
      RunKeepsInv(env, rows, now, ordered, n - 1);
      RowsInClosedForm(env, rows, now, ordered, n - 1);
      var (p, (id, idn)) := (After(env, rows, now, ordered, n - 1), ordered[n - 1]);
      assert id in p.rows <==> id in rows;
      TrackedOfStep(env, rows, now, p, id, idn);
    }
  }

  /**
   The identity at k puts the place on the skip list without claiming it: something may be mounted there, and the
   identity was aborted, or has lost its backing.
   */
  predicate LeavesMount(env: Env, first: Rows, ordered: Ordered, k: nat, place: Path)
    requires k < |ordered|
  {
    var (id, idn) := ordered[k];
    && UsableDest(idn).Some?
    && (id in first || !ClaimedByFirst(env, first, ordered, k, DestOf(env, idn)))
    && MountLeft(env, first, id, idn, place)
  }

  predicate MountLeft(env: Env, first: Rows, id: string, idn: Identity, place: Path)
    requires UsableDest(idn).Some?
  {
    var dest := DestOf(env, idn);
    if IsAborted(idn) then env.mayBeMounted(UsableDest(idn).value) && env.key(dest) == env.key(place)
    else
      && id !in first && !InRows(env, first, dest) && HasBacking(idn) && !env.backingExists(idn.backing.value)
      && env.mayBeMounted(dest) && env.key(env.physical(dest)) == env.key(place)
  }

  lemma SkipsOfStep(env: Env, first: Rows, now: int, p: Progress, id: string, idn: Identity, place: Path)
    requires Inv(env, first, p) && (id in p.rows <==> id in first)
    ensures Taken(env, Step(env, first, now, p, id, idn).skip, place) <==>
            || Taken(env, p.skip, place) || ClaimsPlace(env, first, (id, idn), place)
            || (UsableDest(idn).Some? && (id in first || !Taken(env, p.claimed, DestOf(env, idn))) &&
                MountLeft(env, first, id, idn, place))
  {
    hide RowsMatchIds, PathsDiffer, KeepsRows, NewRowsApart, Registered, Taken, InRows, WithDest, UsableDest, IsAborted,
         HasBacking, Refreshed, NewRecord;
    if UsableDest(idn).Some? {
      var own := DestOf(env, idn);
      WithDestTakes(env, p.skip, own);
      WithDestTakes(env, p.skip, env.physical(own));
      if env.key(own) == env.key(place) {
        TakenAlike(env, p.claimed, own, place);
        TakenAlike(env, p.skip, own, place);
      }
    }
  }

  /** The skip list holds the claimed places and those mounts, and nothing else. */
  lemma {:induction false} SkippedInClosedForm(env: Env, rows: Rows, now: int, ordered: Ordered, n: nat, place: Path)
    requires IsDatabase(rows) && DistinctIds(ordered) && n <= |ordered|
    ensures Taken(env, After(env, rows, now, ordered, n).skip, place) <==>
            || ClaimedByFirst(env, rows, ordered, n, place)
            || exists k | 0 <= k < n :: LeavesMount(env, rows, ordered, k, place)
  {
    hide IsDatabase, Step, Inv, Taken, InRows, UsableDest, IsAborted, IsRegistered, Refreshed, NewRecord, MountLeft,
         ClaimsPlace;
    if n > 0 {
      var m := n - 1;
      SkippedInClosedForm(env, rows, now, ordered, m, place);
      RunKeepsInv(env, rows, now, ordered, m);
      RowsInClosedForm(env, rows, now, ordered, m);
      var (p, (id, idn)) := (After(env, rows, now, ordered, m), ordered[m]);
      assert id in p.rows <==> id in rows;
      SkipsOfStep(env, rows, now, p, id, idn, place);
      assert ordered[m] == (id, idn);
      assert ClaimedByFirst(env, rows, ordered, n, place) <==>
             ClaimedByFirst(env, rows, ordered, m, place) || ClaimsPlace(env, rows, ordered[m], place);
      var left := LeavesMount(env, rows, ordered, m, place);
      assert left <==> && UsableDest(idn).Some? && (id in rows || !Taken(env, p.claimed, DestOf(env, idn)))
                       && MountLeft(env, rows, id, idn, place);
      assert (exists k | 0 <= k < n :: LeavesMount(env, rows, ordered, k, place)) <==>
             (exists k | 0 <= k < m :: LeavesMount(env, rows, ordered, k, place)) || left;
    } else {
      NothingClaimed(env);
    }
  }

  // ---------------------------------------------------------------- running it again

  lemma RefreshIsIdempotent(env: Env, rec: Record, idn: Identity)
    ensures Refreshed(env, Refreshed(env, rec, idn), idn) == Refreshed(env, rec, idn)
  {
    MergeIsIdempotent(rec.metadata, env.groveObject(idn));
  }

  lemma MergeIsIdempotent(existing: Option<Json>, grove: string)
    ensures MergedMetadata(Some(MergedMetadata(existing, grove)), grove) == MergedMetadata(existing, grove)
  {
    var fields := MergedMetadata(existing, grove).fields;
    assert fields["grove" := grove] == fields;
  }

  lemma NewRecordIsFresh(env: Env, id: string, idn: Identity, dest: Path, now: int)
    ensures Refreshed(env, NewRecord(env, id, idn, dest, now), idn) == NewRecord(env, id, idn, dest, now)
  {
    assert (map["grove" := env.groveObject(idn)])["grove" := env.groveObject(idn)] ==
           map["grove" := env.groveObject(idn)];
  }

  lemma {:induction false} MoreRowsMoreClaims(env: Env, rows: Rows, db: Rows, who: (string, Identity), dest: Path)
    requires KeepsRows(rows, db) && ClaimsPlace(env, rows, who, dest)
    ensures ClaimsPlace(env, db, who, dest)
  {
    hide UsableDest, HasBacking, IsAborted;
    RowsOnlyGrow(env, rows, db, DestOf(env, who.1));
  }

  lemma RowsOnlyGrow(env: Env, rows: Rows, db: Rows, dest: Path)
    requires KeepsRows(rows, db)
    ensures InRows(env, rows, dest) ==> InRows(env, db, dest)
  {
    if id :| id in rows && env.key(rows[id].path) == env.key(dest) {
      assert db[id].path == rows[id].path;
    }
  }

  /** What was not registered the first time is not registered the second time. */
  lemma NotRegisteredAgain(env: Env, rows: Rows, db: Rows, ordered: Ordered, k: nat)
    requires k < |ordered| && KeepsRows(rows, db) && ordered[k].0 !in db
    requires !IsRegistered(env, rows, ordered, k)
    ensures !IsRegistered(env, db, ordered, k)
  {
    hide UsableDest, HasBacking, IsAborted, InRows, KeepsRows, ClaimsPlace;
    var (id, idn) := ordered[k];
    if IsRegistered(env, db, ordered, k) {
      var dest := DestOf(env, idn);
      RowsOnlyGrow(env, rows, db, dest);
      KeptIds(rows, db, id);
      var j :| 0 <= j < k && ClaimsPlace(env, rows, ordered[j], dest);
      MoreRowsMoreClaims(env, rows, db, ordered[j], dest);
    }
  }

  lemma RegisteredHasDest(env: Env, rows: Rows, ordered: Ordered, k: nat)
    requires k < |ordered| && IsRegistered(env, rows, ordered, k)
    ensures UsableDest(ordered[k].1).Some?
  {
  }

  lemma KeptIds(rows: Rows, db: Rows, id: string)
    requires KeepsRows(rows, db)
    ensures id in rows ==> id in db
  {
  }

  /** Rebuilding again from the same identities registers nothing and changes no row. */
  lemma RebuildIsIdempotent(env: Env, rows: Rows, now: int, later: int, ordered: Ordered)
    requires IsDatabase(rows) && DistinctIds(ordered)
    ensures var db := After(env, rows, now, ordered, |ordered|).rows;
            var again := After(env, db, later, ordered, |ordered|);
            again.rows == db && again.registered == 0
  {
    hide After, IsRegistered, IsAborted, Refreshed, NewRecord, Taken, InRows, RowsMatchIds, PathsDiffer, KeepsRows,
         NewRowsApart,
         ClaimedByFirst, ClaimsAreSkipped, DistinctIds;
    var n := |ordered|;
    var db := After(env, rows, now, ordered, n).rows;
    var again := After(env, db, later, ordered, n);
    RunKeepsInv(env, rows, now, ordered, n);
    RowsInClosedForm(env, rows, now, ordered, n);
    RowsInClosedForm(env, db, later, ordered, n);
    forall k | 0 <= k < n
      ensures ordered[k].0 in again.rows <==> ordered[k].0 in db
      ensures ordered[k].0 in db ==> again.rows[ordered[k].0] == db[ordered[k].0]
    {
      var (id, idn) := ordered[k];
      KeptIds(rows, db, id);
      if id in rows {
        RefreshIsIdempotent(env, rows[id], idn);
      } else if id in db {
        RegisteredHasDest(env, rows, ordered, k);
        NewRecordIsFresh(env, id, idn, DestOf(env, idn), now);
      } else {
        NotRegisteredAgain(env, rows, db, ordered, k);
      }
    }
    assert again.rows == db;
    CountersAddUp(env, db, later, ordered, n);
  }

  /** The order does not depend on how the map was iterated. */
  lemma {:induction false} OrderIsDetermined(a: Ordered, b: Ordered, byId: map<string, Identity>, k: nat)
    requires IsOrderOf(a, byId) && IsOrderOf(b, byId) && k <= |a|
    ensures k <= |b| && a[..k] == b[..k]
    ensures k == |a| ==> a == b
  {
    hide Precedes;
    if k > 0 {
      var m := k - 1;
      OrderIsDetermined(a, b, byId, m);
      NextIsSmallest(a, b, byId, m);
      NextIsSmallest(b, a, byId, m);
      PrecedesIsAsymmetric(a[m], b[m]);
      assert a[..k] == a[..m] + [a[m]] && b[..k] == b[..m] + [b[m]];
    }
    if k == |a| && |b| > k {
      NextIsSmallest(b, a, byId, k);
    }
    assert k == |a| ==> a[..k] == a;
    assert |b| == k ==> b[..k] == b;
  }

  lemma PrecedesIsAsymmetric(a: (string, Identity), b: (string, Identity))
    ensures !(Precedes(a, b) && Precedes(b, a))
  {
    BeforeIsTotal(a.0, b.0);
  }

  /** With equal beginnings, the next of one is the next of the other or stands behind it. */
  lemma NextIsSmallest(a: Ordered, b: Ordered, byId: map<string, Identity>, m: nat)
    requires IsOrderOf(a, byId) && IsOrderOf(b, byId) && m < |a| && m <= |b| && a[..m] == b[..m]
    ensures m < |b| && (b[m] == a[m] || Precedes(b[m], a[m]))
  {
    hide Precedes;
    OrderHasDistinctIds(a, byId);
    assert forall i | 0 <= i < m :: a[i] == b[i] by {
      assert forall i | 0 <= i < m :: a[i] == a[..m][i] && b[i] == b[..m][i];
    }
    assert a[m].0 in byId;
    var j :| 0 <= j < |b| && b[j].0 == a[m].0;
  }

  // ---------------------------------------------------------------- the loop over the database

  class WorktreeDb {
    var rows: Rows

    constructor (rows: Rows)
      ensures this.rows == rows
    {
      this.rows := rows;
    }

    method GetById(id: string) returns (rec: Option<Record>)
      ensures rec == if id in rows then Some(rows[id]) else None
    {
      return if id in rows then Some(rows[id]) else None;
    }

    method Register(rec: Record)
      modifies this
      ensures rows == Registered(old(rows), rec)
    {
      rows := (map id | id in rows && rows[id].path != rec.path :: rows[id]);
      rows := rows[rec.id := rec];
    }
  }

  /** The lists and counters of one rebuild. */
  class Rebuild {
    const env: Env
    const recs: Rows
    const now: int
    var skipDests: seq<Path>
    var claimedDests: seq<Path>
    var registered: nat
    var alreadyTracked: nat

    constructor (env: Env, recs: Rows, now: int)
      ensures this.env == env && this.recs == recs && this.now == now
      ensures skipDests == [] && claimedDests == [] && registered == 0 && alreadyTracked == 0
    {
      this.env, this.recs, this.now := env, recs, now;
      skipDests, claimedDests, registered, alreadyTracked := [], [], 0, 0;
    }

    ghost function Reached(db: WorktreeDb): Progress
      reads this, db
    {
      Progress(db.rows, skipDests, claimedDests, registered, alreadyTracked)
    }

    method ClaimDest(dest: Path)
      modifies `skipDests, `claimedDests
      ensures skipDests == WithDest(env, old(skipDests), dest)
      ensures claimedDests == WithDest(env, old(claimedDests), dest)
    {
      if !Taken(env, skipDests, dest) {
        skipDests := skipDests + [dest];
      }
      if !Taken(env, claimedDests, dest) {
        claimedDests := claimedDests + [dest];
      }
    }

    method SkipIfGroveMount(dest: Path)
      modifies `skipDests
      ensures skipDests ==
              if env.mayBeMounted(dest) then WithDest(env, old(skipDests), env.physical(dest)) else old(skipDests)
    {
      if env.mayBeMounted(dest) {
        var physical := env.physical(dest);
        if !Taken(env, skipDests, physical) {
          skipDests := skipDests + [physical];
        }
      }
    }

    method RegisterIdentity(db: WorktreeDb, id: string, idn: Identity)
      modifies this, db
      ensures Reached(db) == Step(env, recs, now, old(Reached(db)), id, idn)
    {
      hide Taken, InRows, WithDest, Registered, HasBacking, IsAborted, MergedMetadata;
      var dest := UsableDest(idn);
      var row := db.GetById(id);
      if dest.Some? && Taken(env, claimedDests, env.physical(dest.value)) && row.None? {
        alreadyTracked := alreadyTracked + 1;
        return;
      }
      if IsAborted(idn) {
        if dest.Some? {
          SkipIfGroveMount(dest.value);
        }
        return;
      }
      if row.Some? {
        var rec := row.value;
        if env.isGrove(rec.creationMode) {
          if idn.rank > RANK_DB {
            db.Register(rec.(metadata := Some(MergedMetadata(rec.metadata, env.groveObject(idn)))));
          }
          if dest.Some? {
            ClaimDest(env.physical(dest.value));
          }
        } else if dest.Some? {
          ClaimDest(env.physical(dest.value));
        }
        alreadyTracked := alreadyTracked + 1;
        return;
      }
      if dest.None? {
        return;
      }
      AdoptIdentity(db, id, idn, env.physical(dest.value));
    }

    method AdoptIdentity(db: WorktreeDb, id: string, idn: Identity, dest: Path)
      modifies this, db
      ensures Reached(db) == Adopt(env, recs, now, old(Reached(db)), id, idn, dest)
    {
      hide Taken, InRows, WithDest, Registered;
      if InRows(env, recs, dest) {
        ClaimDest(dest);
        alreadyTracked := alreadyTracked + 1;
        return;
      }
      if !HasBacking(idn) {
        ClaimDest(dest);
        return;
      }
      if !env.backingExists(idn.backing.value) {
        SkipIfGroveMount(dest);
        return;
      }
      ClaimDest(dest);
      db.Register(NewRecord(env, id, idn, dest, now));
      registered := registered + 1;
    }

    method RegisterFromUnion(db: WorktreeDb, ordered: Ordered)
      requires Reached(db) == Begin(recs)
      modifies this, db
      ensures Reached(db) == After(env, recs, now, ordered, |ordered|)
    {
      hide Step;
      for k := 0 to |ordered|
        invariant Reached(db) == After(env, recs, now, ordered, k)
      {
        RegisterIdentity(db, ordered[k].0, ordered[k].1);
      }
    }
  }
}
