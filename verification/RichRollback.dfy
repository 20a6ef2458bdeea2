/** Migration 119 and the rollback that keeps its schema
    (backend/alembic/versions/119_session_contents.py, backend/scripts/forget_rich.py).

    A database is its alembic version, the levels its check constraint admits, the objects 119
    creates that are present, what its tables and columns hold and the rows that may name `rich`.
    Each transaction is one step; starts of the current and of the previous image, rollbacks
    and application writes come in any order. */
module RichRollback {

  import opened CaptureLevels
  import opened Options
  import opened Text

  /** The columns, tables and indexes 119 adds. */
  datatype Object =
    | RichSince | CaptureCapabilities | CaptureCapabilitiesAt | InstallationBytes | SweepCursor | SweptAt
    | SessionBytes | SessionCount
    | Generations | Contents | Deletions
    | TimelineIndex | CallIndex | PendingExpiryIndex | ReceiptIndex | DeletionsDueIndex

  /** The order in which the upgrade creates them; the downgrade drops them in reverse. */
  function Nth(i: nat): Object {
    match i
    case 0 => RichSince
    case 1 => CaptureCapabilities
    case 2 => CaptureCapabilitiesAt
    case 3 => InstallationBytes
    case 4 => SweepCursor
    case 5 => SweptAt
    case 6 => SessionBytes
    case 7 => SessionCount
    case 8 => Generations
    case 9 => Contents
    case 10 => TimelineIndex
    case 11 => CallIndex
    case 12 => PendingExpiryIndex
    case 13 => ReceiptIndex
    case 14 => Deletions
    case _ => DeletionsDueIndex
  }

  function Creation(): (steps: seq<Object>)
    ensures |steps| == 16 && forall i | 0 <= i < 16 :: steps[i] == Nth(i)
  {
    seq(16, i requires 0 <= i < 16 => Nth(i))
  }

  function Objects(steps: seq<Object>): set<Object> {
    set o | o in steps
  }

  predicate IsIndex(o: Object) {
    o.TimelineIndex? || o.CallIndex? || o.PendingExpiryIndex? || o.ReceiptIndex? || o.DeletionsDueIndex?
  }

  /** Tables hold rows, columns the values that differ from the default they start with. */
  predicate HoldsData(o: Object) { !IsIndex(o) }

  /** The objects an object cannot exist without: an index its table, a table the one it refers to. */
  function Needs(o: Object): set<Object> {
    match o
    case Contents => {Generations}
    case TimelineIndex => {Contents}
    case CallIndex => {Contents}
    case PendingExpiryIndex => {Contents}
    case ReceiptIndex => {Contents}
    case DeletionsDueIndex => {Deletions}
    case _ => {}
  }

  const LEVELS: set<string> := {"metadata", "standard", "full"}
  const LEVELS_WITH_RICH: set<string> := {"metadata", "standard", "full", "rich"}

  /** A heartbeat: its top-level members and the JSON text of each. */
  type Status = map<string, string>

  datatype Db = Db(
    version: int,
    levels: set<string>,
    objects: set<Object>,
    stored: map<Object, set<string>>,
    mappings: map<string, string>,
    sessions: map<string, seq<string>>,
    captures: map<string, string>,
    statuses: map<string, Status>)

  // --------------------------------------------------------------------- upgrade

  predicate Admits(levels: set<string>, mappings: map<string, string>) {
    forall id | id in mappings :: mappings[id] in levels
  }

  /** Create-if-absent; `None` when what it depends on is missing. */
  function Create(db: Db, o: Object): Option<Db> {
    if o in db.objects then Some(db)
    else if !(Needs(o) <= db.objects) then None
    else Some(db.(objects := db.objects + {o}, stored := if HoldsData(o) then db.stored[o := {}] else db.stored))
  }

  function CreateAll(db: Db, steps: seq<Object>): Option<Db> {
    if steps == [] then Some(db)
    else
      var n := |steps| - 1;
      var earlier := CreateAll(db, steps[..n]);
      if earlier.None? then None else Create(earlier.value, steps[n])
  }

  /** Recreating the check constraint fails when a row violates it. */
  function SetLevels(db: Db, levels: set<string>): Option<Db> {
    if Admits(levels, db.mappings) then Some(db.(levels := levels)) else None
  }

  function Upgrade(db: Db): Option<Db> {
    var widened := SetLevels(db, LEVELS_WITH_RICH);
    if widened.None? then None else CreateAll(widened.value, Creation())
  }

  // -------------------------------------------------------------------- rollback

  const MARKER: string := "\"rich_capture\""

  function Quoted(name: string): string { "\"" + name + "\"" }

  /** The query finds the status: a name in it looks like the marker, at the top or anywhere inside. */
  predicate Mentions(status: Status) {
    exists name | name in status :: Like(Quoted(name), MARKER) || Like(status[name], MARKER)
  }

  function ForgetLevels(levels: map<string, string>): map<string, string> {
    map id | id in levels :: Rename(levels[id])
  }

  function ForgetSession(levels: seq<string>): seq<string> {
    if "rich" in levels then WithoutRich(levels) else levels
  }

  function ForgetSessions(sessions: map<string, seq<string>>): map<string, seq<string>> {
    map id | id in sessions :: ForgetSession(sessions[id])
  }

  function ForgetStatuses(statuses: map<string, Status>): map<string, Status> {
    map id | id in statuses :: WithoutMember(statuses[id])
  }

  function ForgetRich(db: Db): Db {
    db.(mappings := ForgetLevels(db.mappings), sessions := ForgetSessions(db.sessions),
        captures := ForgetLevels(db.captures), statuses := ForgetStatuses(db.statuses))
  }

  function Stamp(db: Db): Db {
    if Contents in db.objects && db.version == 119 then db.(version := 118) else db
  }

  /** Nothing the previous release reads names `rich`. */
  ghost predicate NoRich(db: Db) {
    && (forall id | id in db.mappings :: db.mappings[id] != "rich")
    && (forall id | id in db.sessions :: "rich" !in db.sessions[id])
    && (forall id | id in db.captures :: db.captures[id] != "rich")
    && (forall id | id in db.statuses :: "rich_capture" !in db.statuses[id])
  }

  /** Only the version is stamped, and only on a database at 119 that has 119's tables. */
  lemma StampMeans(db: Db)
    ensures Stamp(db).version == 118 || Stamp(db) == db
    ensures Stamp(db) != db <==> db.version == 119 && Contents in db.objects
    ensures Stamp(db).(version := db.version) == db
  {
  }

  // ------------------------------------------------------------------- downgrade

  function Drop(db: Db, o: Object): Option<Db> {
    if o !in db.objects || (exists other | other in db.objects :: o in Needs(other)) then None
    else Some(db.(objects := db.objects - {o}, stored := db.stored - {o}))
  }

  /** Drops the objects from the last to the first. */
  function DropAll(db: Db, steps: seq<Object>): Option<Db>
    decreases |steps|
  {
    if steps == [] then Some(db)
    else
      var n := |steps| - 1;
      var last := Drop(db, steps[n]);
      if last.None? then None else DropAll(last.value, steps[..n])
  }

  function Downgrade(db: Db): Option<Db> {
    var dropped := DropAll(ForgetRich(db), Creation());
    if dropped.None? then None
    else
      var narrowed := SetLevels(dropped.value, LEVELS);
      if narrowed.None? then None else Some(narrowed.value.(version := 118))
  }

  // --------------------------------------------------------- the rewrite's loops

  /** `_rewrite`: only the rows whose text names the marker are written, one update each. */
  method Rewrite<V>(table: map<string, V>, marked: set<string>, rewrite: V -> V) returns (after: map<string, V>, count: nat)
    requires marked <= table.Keys
    ensures after == map id | id in table :: if id in marked then rewrite(table[id]) else table[id]
    ensures count == |marked|
  {
    after := table;
    var todo := marked;
    while todo != {}
      invariant todo <= marked
      invariant after == map id | id in table :: if id in marked && id !in todo then rewrite(table[id]) else table[id]
    {
      var id :| id in todo;
      todo := todo - {id};
      after := after[id := rewrite(table[id])];
    }
    count := |marked|;
  }

  function Naming(sessions: map<string, seq<string>>): set<string> {
    set id | id in sessions.Keys && "rich" in sessions[id]
  }

  function Mentioning(statuses: map<string, Status>): set<string> {
    set id | id in statuses.Keys && Mentions(statuses[id])
  }

  function WithoutMember(status: Status): Status { status - {"rich_capture"} }

  lemma MemberIsFound()
    ensures Like(Quoted("rich_capture"), MARKER)
  {
    assert Quoted("rich_capture") == MARKER;
    assert LikeAt(MARKER, MARKER, 0);
  }

  /** The underscore finds other names too: such a status is written again as it was, and counted. */
  lemma OtherNamesFound()
    ensures Like(Quoted("rich-capture"), MARKER)
    ensures var status: Status := map["rich-capture" := "1"]; Mentions(status) && WithoutMember(status) == status
  {
    assert LikeAt(Quoted("rich-capture"), MARKER, 0);
    var status: Status := map["rich-capture" := "1"];
    assert "rich-capture" in status;
    assert "rich-capture"[4] == '-';
  }

  lemma UnmentionedUnchanged(statuses: map<string, Status>)
    ensures forall id | id in statuses && id !in Mentioning(statuses) :: WithoutMember(statuses[id]) == statuses[id]
  {
    MemberIsFound();
  }

  class Connection {
    var db: Db

    constructor (db: Db)
      ensures this.db == db
    {
      this.db := db;
    }

    method RewriteSessions() returns (count: nat)
      modifies this
      ensures db == old(db).(sessions := ForgetSessions(old(db).sessions))
      ensures count == |Naming(old(db).sessions)|
    {
      var before := db.sessions;
      var after;
      after, count := Rewrite(before, Naming(before), WithoutRich);
      assert after == ForgetSessions(before);
      db := db.(sessions := after);
    }

    method RewriteStatuses() returns (count: nat)
      modifies this
      ensures db == old(db).(statuses := ForgetStatuses(old(db).statuses))
      ensures count == |Mentioning(old(db).statuses)|
    {
      var before := db.statuses;
      var after;
      after, count := Rewrite(before, Mentioning(before), WithoutMember);
      UnmentionedUnchanged(before);
      assert after == ForgetStatuses(before);
      db := db.(statuses := after);
    }

    /** The four rewrites, in their order, then the stamp: one transaction. */
    method ForgetAndStamp() returns (stamped: nat)
      modifies this
      ensures db == Stamp(ForgetRich(old(db)))
      ensures stamped == if Contents in old(db).objects && old(db).version == 119 then 1 else 0
    {
      db := db.(mappings := ForgetLevels(db.mappings));
      var _ := RewriteSessions();
      db := db.(captures := ForgetLevels(db.captures));
      var _ := RewriteStatuses();
      stamped := 0;
      if Contents in db.objects && db.version == 119 {
        db := db.(version := 118);
        stamped := 1;
      }
    }

    /** The upgrade: the wider constraint, then object by object. */
    method RunUpgrade() returns (failed: bool)
      modifies this
      ensures failed <==> Upgrade(old(db)).None?
      ensures !failed ==> Some(db) == Upgrade(old(db))
    {
      var widened := SetLevels(db, LEVELS_WITH_RICH);
      if widened.None? { return true; }
      ghost var start := widened.value;
      db := widened.value;
      for i := 0 to |Creation()|
        invariant CreateAll(start, Creation()[..i]) == Some(db)
      {
        assert Creation()[..i + 1][..i] == Creation()[..i];
        var next := Create(db, Creation()[i]);
        if next.None? {
          FailureStays(start, Creation(), i + 1);
          return true;
        }
        db := next.value;
      }
      assert Creation()[..|Creation()|] == Creation();
      failed := false;
    }
  }

  lemma {:induction false} FailureStays(db: Db, steps: seq<Object>, n: nat)
    requires n <= |steps| && CreateAll(db, steps[..n]).None?
    ensures CreateAll(db, steps).None?
  {
    if n == |steps| {
      assert steps[..n] == steps;
    } else {
      var m := |steps| - 1;
      assert steps[..m][..n] == steps[..n];
      FailureStays(db, steps[..m], n);
    }
  }

  // ------------------------------------------------------- the schema is reached

  /** Where an object comes in that order. */
  function Position(o: Object): nat {
    match o
    case RichSince => 0
    case CaptureCapabilities => 1
    case CaptureCapabilitiesAt => 2
    case InstallationBytes => 3
    case SweepCursor => 4
    case SweptAt => 5
    case SessionBytes => 6
    case SessionCount => 7
    case Generations => 8
    case Contents => 9
    case TimelineIndex => 10
    case CallIndex => 11
    case PendingExpiryIndex => 12
    case ReceiptIndex => 13
    case Deletions => 14
    case DeletionsDueIndex => 15
  }

  lemma PositionInverse(i: nat, o: Object)
    ensures i < 16 ==> Position(Nth(i)) == i
    ensures Position(o) < 16 && Nth(Position(o)) == o
  {
  }

  /** Each object comes after what it needs, and once. */
  ghost predicate Ordered(steps: seq<Object>) {
    forall i | 0 <= i < |steps| :: Needs(steps[i]) <= Objects(steps[..i]) && steps[i] !in steps[..i]
  }

  lemma NeedsLower(o: Object, p: Object)
    requires p in Needs(o)
    ensures Position(p) < Position(o)
  {
  }

  /** The contents refer to their generation, and an index stands on its table. */
  lemma NeedsMeans(o: Object, p: Object)
    ensures p in Needs(o) <==>
      || (o.Contents? && p.Generations?)
      || ((o.TimelineIndex? || o.CallIndex? || o.PendingExpiryIndex? || o.ReceiptIndex?) && p.Contents?)
      || (o.DeletionsDueIndex? && p.Deletions?)
  {
  }

  /** Nothing is created before what it needs, or dropped before what needs it. */
  lemma OrderMatters(db: Db, o: Object, p: Object)
    requires p in Needs(o)
    ensures o !in db.objects && p !in db.objects ==> Create(db, o).None?
    ensures o in db.objects ==> Drop(db, p).None?
  {
  }

  lemma CreationOrdered()
    ensures Ordered(Creation())
  {
    forall i | 0 <= i < |Creation()| ensures Needs(Creation()[i]) <= Objects(Creation()[..i]) && Creation()[i] !in Creation()[..i] {
      PositionInverse(i, RichSince);
      forall p | p in Needs(Creation()[i]) ensures p in Creation()[..i] {
        NeedsLower(Creation()[i], p);
        PositionInverse(0, p);
        assert Creation()[..i][Position(p)] == p;
      }
      forall j | 0 <= j < i ensures Creation()[j] != Creation()[i] { PositionInverse(j, RichSince); }
    }
  }

  lemma CreationComplete(o: Object)
    ensures o in Creation()
  {
    PositionInverse(0, o);
    assert Creation()[Position(o)] == o;
  }

  /** What tables and columns hold is kept; new ones start empty. */
  function Kept(stored: map<Object, set<string>>, created: set<Object>): map<Object, set<string>> {
    map o | o in stored.Keys || (o in created && HoldsData(o)) :: if o in stored then stored[o] else {}
  }

  ghost predicate DataKept(db: Db) {
    forall o :: o in db.stored <==>
      o in db.objects && !(o.TimelineIndex? || o.CallIndex? || o.PendingExpiryIndex? || o.ReceiptIndex? || o.DeletionsDueIndex?)
  }

  /** The database with these objects added to whatever it has. */
  function With(db: Db, created: set<Object>): Db {
    db.(objects := db.objects + created, stored := Kept(db.stored, created))
  }

  lemma KeptSame(stored: map<Object, set<string>>, created: set<Object>, o: Object)
    requires o in stored || o in created || !HoldsData(o)
    ensures Kept(stored, created + {o}) == Kept(stored, created)
  {
  }

  lemma KeptNew(stored: map<Object, set<string>>, created: set<Object>, o: Object)
    requires HoldsData(o) && o !in stored && o !in created
    ensures Kept(stored, created + {o}) == Kept(stored, created)[o := {}]
  {
  }

  lemma CreatePresent(db: Db, created: set<Object>, o: Object)
    requires DataKept(db) && o in db.objects + created
    ensures With(db, created + {o}) == With(db, created)
  {
    KeptSame(db.stored, created, o);
    assert db.objects + (created + {o}) == db.objects + created;
  }

  lemma CreateOne(db: Db, created: set<Object>, o: Object)
    requires DataKept(db) && Needs(o) <= db.objects + created
    ensures Create(With(db, created), o) == Some(With(db, created + {o}))
  {
    if o in db.objects + created { CreatePresent(db, created, o); } else { CreateAbsent(db, created, o); }
  }

  lemma CreateAbsent(db: Db, created: set<Object>, o: Object)
    requires DataKept(db) && o !in db.objects + created
    ensures With(db, created + {o}).objects == With(db, created).objects + {o}
    ensures With(db, created + {o}).stored == if HoldsData(o) then With(db, created).stored[o := {}] else With(db, created).stored
  {
    assert db.objects + (created + {o}) == (db.objects + created) + {o};
    if HoldsData(o) { KeptNew(db.stored, created, o); } else { KeptSame(db.stored, created, o); }
  }

  lemma WithNothing(db: Db)
    ensures With(db, {}) == db
  {
    assert db.objects + {} == db.objects;
    assert Kept(db.stored, {}) == db.stored;
  }

  lemma OrderedPrefix(steps: seq<Object>)
    requires Ordered(steps) && steps != []
    ensures var n := |steps| - 1;
      Ordered(steps[..n]) && Needs(steps[n]) <= Objects(steps[..n]) && steps[n] !in Objects(steps[..n])
      && Objects(steps) == Objects(steps[..n]) + {steps[n]}
  {
    var n := |steps| - 1;
    assert steps == steps[..n] + [steps[n]];
    forall i | 0 <= i < n ensures Needs(steps[..n][i]) <= Objects(steps[..n][..i]) && steps[..n][i] !in steps[..n][..i] {
      assert steps[..n][..i] == steps[..i];
      assert Needs(steps[i]) <= Objects(steps[..i]);
    }
  }

  /** From any subset of the objects, creation succeeds, adds what is missing and keeps every row. */
  lemma {:induction false} CreateFacts(db: Db, steps: seq<Object>)
    requires Ordered(steps) && DataKept(db)
    ensures CreateAll(db, steps) == Some(With(db, Objects(steps)))
  {
    if steps == [] {
      assert Objects(steps) == {};
      WithNothing(db);
    } else {
      var n := |steps| - 1;
      OrderedPrefix(steps);
      CreateFacts(db, steps[..n]);
      CreateOne(db, Objects(steps[..n]), steps[n]);
    }
  }

  // ------------------------------------------------------- the whole migration

  ghost predicate Full(objects: set<Object>) {
    forall o: Object :: o in objects
  }

  lemma CreationIsFull(objects: set<Object>)
    ensures Objects(Creation()) <= objects <==> Full(objects)
  {
    forall o: Object ensures o in Creation() { CreationComplete(o); }
  }

  /** Upgrading from any subset of 119's objects reaches the full schema; the data in its tables
      and columns stays, those that were missing start empty, and nothing else changes. */
  lemma UpgradeFromAnySubset(db: Db)
    requires DataKept(db) && Admits(LEVELS_WITH_RICH, db.mappings)
    ensures Upgrade(db) == Some(With(db.(levels := LEVELS_WITH_RICH), Objects(Creation())))
    ensures Full(Upgrade(db).value.objects) && DataKept(Upgrade(db).value)
    ensures Upgrade(db).value.levels == {"metadata", "standard", "full", "rich"}
    ensures forall o | o in Upgrade(db).value.stored && o !in db.stored :: Upgrade(db).value.stored[o] == {}
    ensures forall o | o in db.stored :: o in Upgrade(db).value.stored && Upgrade(db).value.stored[o] == db.stored[o]
  {
    var widened := db.(levels := LEVELS_WITH_RICH);
    CreationOrdered();
    CreateFacts(widened, Creation());
    var after := With(widened, Objects(Creation()));
    CreationIsFull(after.objects);
    CreationIsFull(Objects(Creation()));
  }

  /** The upgrade fails exactly on a mapping whose level the wider constraint does not admit. */
  lemma UpgradeIff(db: Db)
    requires DataKept(db)
    ensures Upgrade(db).Some? <==>
      forall id | id in db.mappings :: db.mappings[id] in {"metadata", "standard", "full", "rich"}
  {
    if Admits(LEVELS_WITH_RICH, db.mappings) { UpgradeFromAnySubset(db); }
  }

  /** Upgrading again changes nothing. */
  lemma UpgradeTwice(db: Db)
    requires DataKept(db) && Admits(LEVELS_WITH_RICH, db.mappings)
    ensures Upgrade(db).Some? && Upgrade(Upgrade(db).value) == Upgrade(db)
  {
    UpgradeFromAnySubset(db);
    var after := Upgrade(db).value;
    UpgradeFromAnySubset(after);
    assert after.objects + Objects(Creation()) == after.objects;
    assert Kept(after.stored, Objects(Creation())) == after.stored;
  }

  // ---------------------------------------------------------------- downgrade

  /** The database with these of 119's objects and no others. */
  function Only(db: Db, left: set<Object>): Db {
    db.(objects := left, stored := map o | o in db.stored && o in left :: db.stored[o])
  }

  lemma DropOne(db: Db, left: set<Object>, o: Object)
    requires o !in left && forall other | other in left + {o} :: o !in Needs(other)
    ensures Drop(Only(db, left + {o}), o) == Some(Only(db, left))
  {
    assert left + {o} - {o} == left;
    assert Only(db, left + {o}).stored - {o} == Only(db, left).stored;
  }

  /** The last of an ordered list is needed by none of the others. */
  lemma LastIsFree(steps: seq<Object>)
    requires Ordered(steps) && steps != []
    ensures forall other | other in Objects(steps) :: steps[|steps| - 1] !in Needs(other)
  {
    var n := |steps| - 1;
    forall other | other in steps ensures steps[n] !in Needs(other) {
      var i :| 0 <= i < |steps| && steps[i] == other;
      assert Needs(steps[i]) <= Objects(steps[..i]);
      assert forall o | o in steps[..i] :: o in steps[..n];
    }
  }

  lemma {:induction false} DropFacts(db: Db, steps: seq<Object>)
    requires Ordered(steps)
    ensures DropAll(Only(db, Objects(steps)), steps) == Some(Only(db, {}))
  {
    if steps == [] {
      assert Objects(steps) == {};
    } else {
      var n := |steps| - 1;
      OrderedPrefix(steps);
      LastIsFree(steps);
      DropOne(db, Objects(steps[..n]), steps[n]);
      DropFacts(db, steps[..n]);
    }
  }

  lemma {:induction false} DropNeedsAll(db: Db, steps: seq<Object>)
    requires DropAll(db, steps).Some?
    ensures Objects(steps) <= db.objects
    decreases |steps|
  {
    if steps != [] {
      var n := |steps| - 1;
      DropNeedsAll(Drop(db, steps[n]).value, steps[..n]);
      assert steps == steps[..n] + [steps[n]];
      forall o | o in steps ensures o in db.objects {
        assert o in Objects(steps[..n]) || o == steps[n];
      }
    }
  }

  lemma ForgetFits(db: Db)
    requires Admits(LEVELS_WITH_RICH, db.mappings)
    ensures Admits(LEVELS, ForgetRich(db).mappings)
  {
    forall id | id in db.mappings ensures Rename(db.mappings[id]) in LEVELS {
      assert db.mappings[id] in LEVELS_WITH_RICH;
    }
  }

  /** The downgrade succeeds exactly on the full schema; it then always satisfies the narrower
      constraint it recreates, and leaves none of 119's objects and nothing that names `rich`. */
  lemma DowngradeIff(db: Db)
    requires DataKept(db) && Admits(LEVELS_WITH_RICH, db.mappings)
    ensures Downgrade(db).Some? <==> Full(db.objects)
    ensures Full(db.objects) ==>
      Downgrade(db) == Some(ForgetRich(db).(version := 118, levels := {"metadata", "standard", "full"}, objects := {}, stored := map[]))
  {
    CreationIsFull(db.objects);
    ForgetFits(db);
    var forgotten := ForgetRich(db);
    if Full(db.objects) {
      CreationIsFull(Objects(Creation()));
      CreationOrdered();
      assert Only(forgotten, Objects(Creation())).objects == db.objects;
      assert Only(forgotten, Objects(Creation())).stored == db.stored;
      DropFacts(forgotten, Creation());
      assert Only(forgotten, {}).stored == map[];
    } else if DropAll(forgotten, Creation()).Some? {
      DropNeedsAll(forgotten, Creation());
      assert false;
    }
  }

  // ----------------------------------------------------- any order of transactions

  /** A start of the current image upgrades to head; a start of the previous image finds its own
      head or stops; a rollback is committed or only reported; the application writes rows. */
  datatype Event = StartCurrent | StartPrevious | Rollback(apply: bool) | Write

  function Start(db: Db): Db {
    if db.version != 118 then db
    else
      var upgraded := Upgrade(db);
      if upgraded.None? then db else upgraded.value.(version := 119)
  }

  /** Applications change rows, never the schema, and the check constraint holds of what they write. */
  ghost predicate LegalWrite(db: Db, after: Db) {
    && after.version == db.version && after.levels == db.levels && after.objects == db.objects
    && after.stored.Keys == db.stored.Keys && Admits(db.levels, after.mappings)
  }

  ghost predicate Step(db: Db, event: Event, after: Db) {
    match event
    case StartCurrent => after == Start(db)
    case StartPrevious => after == db
    case Rollback(apply) => after == if apply then Stamp(ForgetRich(db)) else db
    case Write => LegalWrite(db, after)
  }

  /** The database the previous release leaves: version 118, none of 119's objects. */
  ghost predicate Initial(db: Db) {
    db.version == 118 && db.levels == LEVELS && db.objects == {} && db.stored == map[] && Admits(LEVELS, db.mappings)
  }

  ghost predicate History(states: seq<Db>, events: seq<Event>) {
    && |states| == |events| + 1 && Initial(states[0])
    && forall i | 0 <= i < |events| :: Step(states[i], events[i], states[i + 1])
  }

  ghost predicate Invariant(db: Db) {
    && (db.version == 118 || db.version == 119)
    && DataKept(db) && (db.levels == LEVELS || db.levels == LEVELS_WITH_RICH) && Admits(db.levels, db.mappings)
    && (db.objects == {} || Full(db.objects))
    && (db.version == 119 ==> Full(db.objects) && db.levels == LEVELS_WITH_RICH)
    && (Full(db.objects) ==> db.levels == LEVELS_WITH_RICH)
  }

  lemma StartFacts(db: Db)
    requires Invariant(db)
    ensures Invariant(Start(db)) && Start(db).version == 119
    ensures db.objects <= Start(db).objects
    ensures forall o | o in db.stored :: o in Start(db).stored && Start(db).stored[o] == db.stored[o]
  {
    if db.version == 118 { UpgradeFromAnySubset(db); }
  }

  lemma ForgetLevelsFacts(levels: map<string, string>)
    ensures forall id | id in ForgetLevels(levels) :: ForgetLevels(levels)[id] != "rich"
  {
  }

  lemma ForgetSessionsFacts(sessions: map<string, seq<string>>)
    ensures forall id | id in ForgetSessions(sessions) :: "rich" !in ForgetSessions(sessions)[id]
  {
    forall id | id in sessions ensures "rich" !in ForgetSession(sessions[id]) {
      WithoutRichMeans(sessions[id]);
    }
  }

  /** The four rewrites leave nothing the previous release cannot read. */
  lemma ForgetRemovesRich(db: Db)
    ensures NoRich(ForgetRich(db))
  {
    ForgetLevelsFacts(db.mappings);
    ForgetSessionsFacts(db.sessions);
    ForgetLevelsFacts(db.captures);
  }

  /** What forgetting does, row by row: `rich` becomes `full`, a session that names it keeps its levels by
      last occurrence, a heartbeat loses one member and keeps the others; nothing else changes. */
  lemma ForgetMeans(db: Db)
    ensures var after := ForgetRich(db);
      && after.mappings.Keys == db.mappings.Keys && after.captures.Keys == db.captures.Keys
      && after.sessions.Keys == db.sessions.Keys && after.statuses.Keys == db.statuses.Keys
      && (forall id | id in db.mappings :: after.mappings[id] == if db.mappings[id] == "rich" then "full" else db.mappings[id])
      && (forall id | id in db.captures :: after.captures[id] == if db.captures[id] == "rich" then "full" else db.captures[id])
      && (forall id | id in db.sessions :: SessionForgotten(db.sessions[id], after.sessions[id]))
      && (forall id | id in db.statuses :: MemberForgotten(db.statuses[id], after.statuses[id]))
      && after.version == db.version && after.levels == db.levels && after.objects == db.objects && after.stored == db.stored
  {
    forall id | id in db.sessions ensures SessionForgotten(db.sessions[id], ForgetSession(db.sessions[id])) {
      WithoutRichMeans(db.sessions[id]);
    }
    forall id | id in db.statuses ensures MemberForgotten(db.statuses[id], WithoutMember(db.statuses[id])) {}
  }

  ghost predicate SessionForgotten(before: seq<string>, after: seq<string>) {
    if "rich" in before then LastOccurrences(Renamed(before), after) else after == before
  }

  ghost predicate MemberForgotten(before: Status, after: Status) {
    && (forall name :: name in after <==> name in before && name != "rich_capture")
    && forall name | name in after :: after[name] == before[name]
  }

  /** A database that names no `rich` is left as it is, so forgetting twice is forgetting once. */
  lemma NothingToForget(db: Db)
    requires NoRich(db)
    ensures ForgetRich(db) == db
  {
    assert ForgetLevels(db.mappings) == db.mappings;
    assert ForgetLevels(db.captures) == db.captures;
    assert ForgetSessions(db.sessions) == db.sessions;
    forall id | id in db.statuses ensures WithoutMember(db.statuses[id]) == db.statuses[id] {
      assert "rich_capture" !in db.statuses[id];
    }
    assert ForgetStatuses(db.statuses) == db.statuses;
  }

  /** Upgrading a database of the previous release and downgrading it gives that database back. */
  lemma UpgradeDowngradeRoundTrip(db: Db)
    requires Initial(db) && NoRich(db)
    ensures Downgrade(Start(db)) == Some(db)
  {
    assert Admits(LEVELS_WITH_RICH, db.mappings);
    UpgradeFromAnySubset(db);
    DowngradeIff(Start(db));
    NothingToForget(Start(db));
  }

  lemma RollbackFacts(db: Db)
    requires Invariant(db)
    ensures var after := Stamp(ForgetRich(db));
      Invariant(after) && after.version == 118 && NoRich(after) && after.objects == db.objects && after.stored == db.stored
  {
    ForgetRemovesRich(db);
    forall id | id in db.mappings ensures Rename(db.mappings[id]) in db.levels {
      assert db.mappings[id] in db.levels;
    }
  }

  lemma StepKeepsInvariant(db: Db, event: Event, after: Db)
    requires Invariant(db) && Step(db, event, after)
    ensures Invariant(after) && db.objects <= after.objects
    ensures !event.Write? ==> forall o | o in db.stored :: o in after.stored && after.stored[o] == db.stored[o]
  {
    match event
    case StartCurrent => StartFacts(db);
    case StartPrevious =>
    case Rollback(apply) => if apply { RollbackFacts(db); }
    case Write =>
  }

  /** At every point of every history the version is 118 or 119, 119 means the full schema, and
      the schema is all there or not begun. */
  lemma {:induction false} EveryState(states: seq<Db>, events: seq<Event>, i: nat)
    requires History(states, events) && i < |states|
    ensures Invariant(states[i])
  {
    assert RichSince !in states[0].objects;
    if i > 0 {
      EveryState(states, events, i - 1);
      StepKeepsInvariant(states[i - 1], events[i - 1], states[i]);
    }
  }

  /** 119's objects are never lost, and only application writes change what they hold. */
  lemma {:induction false} NothingIsLost(states: seq<Db>, events: seq<Event>, i: nat, j: nat)
    requires History(states, events) && i <= j < |states|
    ensures states[i].objects <= states[j].objects
    ensures (forall k | i <= k < j :: !events[k].Write?) ==>
      forall o | o in states[i].stored :: o in states[j].stored && states[j].stored[o] == states[i].stored[o]
    decreases j
  {
    if i < j {
      NothingIsLost(states, events, i, j - 1);
      EveryState(states, events, j - 1);
      StepKeepsInvariant(states[j - 1], events[j - 1], states[j]);
    }
  }

  /** What the previous image needs to start and to read every row. */
  ghost predicate PreviousCanRun(db: Db) { db.version == 118 && NoRich(db) }

  /** Wherever it comes in a history, a committed rollback leaves a database the previous image can
      run on, and a start of the current image leaves the full schema at 119. */
  lemma RollbackAlwaysWorks(states: seq<Db>, events: seq<Event>, i: nat)
    requires History(states, events) && i < |events|
    ensures events[i] == Rollback(true) ==> PreviousCanRun(states[i + 1]) && states[i + 1].objects == states[i].objects
    ensures events[i] == StartCurrent ==> states[i + 1].version == 119 && Full(states[i + 1].objects)
  {
    EveryState(states, events, i);
    assert Step(states[i], events[i], states[i + 1]);
    if events[i] == Rollback(true) { RollbackFacts(states[i]); }
    if events[i] == StartCurrent { StartFacts(states[i]); }
  }

  lemma StaysRunnable(db: Db, event: Event, after: Db)
    requires Invariant(db) && PreviousCanRun(db) && Step(db, event, after)
    requires !event.StartCurrent? && (event.Write? ==> NoRich(after))
    ensures PreviousCanRun(after)
  {
    if event == Rollback(true) { RollbackFacts(db); }
  }

  /** It stays runnable until an instance of the current image starts or something writes `rich` again. */
  lemma {:induction false} RunnableUntilRestart(states: seq<Db>, events: seq<Event>, i: nat, j: nat)
    requires History(states, events) && i <= j < |states| && PreviousCanRun(states[i])
    requires forall k | i <= k < j :: !events[k].StartCurrent? && (events[k].Write? ==> NoRich(states[k + 1]))
    ensures PreviousCanRun(states[j])
    decreases j
  {
    if i < j {
      RunnableUntilRestart(states, events, i, j - 1);
      EveryState(states, events, j - 1);
      StaysRunnable(states[j - 1], events[j - 1], states[j]);
    }
  }
}
