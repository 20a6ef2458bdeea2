/** Retention of hashed frontend assets (frontend/scripts/retain-assets.py).

    A root is a directory with an `assets` folder and an optional manifest.
    `Store` is the destination the script updates in place: its method follows the
    script's loops and its atomic writes, and is proved against `Retain`, the value
    a run computes.  What the script promises over whole histories of deployments,
    interrupted ones included, is proved about `Retain` and `DuringRun`. */
module AssetRetention {

  import opened Containers

  newtype Byte = x: int | 0 <= x < 256

  type Name = string

  /** A JSON expiry: a finite number, or anything else the script refuses. */
  datatype Expiry = Finite(at: real) | NotFinite

  /** `Absent`: no manifest file.  `Malformed`: not the two collections the script expects. */
  datatype Manifest =
    | Absent
    | Malformed
    | Listed(active: set<Name>, expires: map<Name, Expiry>)

  datatype Root = Root(assets: map<Name, seq<Byte>>, manifest: Manifest)

  /** What `inventory` returns: the active names and the retired names with their deadlines. */
  datatype Stock = Stock(active: set<Name>, expires: map<Name, real>)

  datatype Refusal = BadGrace | BadCap | InvalidManifest | InvalidEntry | InvalidExpiry | Collision | BadRequest

  datatype Outcome<+T> = Done(value: T) | Refused(why: Refusal)

  const EMPTY: Root := Root(map[], Absent)

  // ---------------------------------------------------------------- names

  predicate Alphanumeric(c: char) {
    'A' <= c <= 'Z' || 'a' <= c <= 'z' || '0' <= c <= '9'
  }

  predicate StemChar(c: char) { Alphanumeric(c) || c in "_.-" }

  predicate HashChar(c: char) { Alphanumeric(c) || c in "_-" }

  predicate SuffixChar(c: char) { Alphanumeric(c) || c == '.' }

  /** A hyphen at `dash`, the first dot after the hash at `dot`. */
  predicate HashedAt(name: Name, dash: int, dot: int) {
    && 0 < dash < dot < |name| - 1 && name[dash] == '-' && name[dot] == '.' && dot - dash > 8
    && (forall i | 0 <= i < dash :: StemChar(name[i]))
    && (forall i | dash < i < dot :: HashChar(name[i]))
    && (forall i | dot < i < |name| :: SuffixChar(name[i]))
  }

  /** stem, hyphen, a hash of eight characters or more, dot, suffix. */
  predicate HashedName(name: Name) {
    exists dash, dot | 0 < dash < dot < |name| - 1 :: HashedAt(name, dash, dot)
  }

  // ------------------------------------------------------------ inventory

  function ListedActive(root: Root): set<Name> {
    if root.manifest.Listed? then root.manifest.active else root.assets.Keys
  }

  function ListedExpires(root: Root): map<Name, Expiry> {
    if root.manifest.Listed? then root.manifest.expires else map[]
  }

  function Inventory(root: Root): Outcome<Stock> {
    var active, expires := ListedActive(root), ListedExpires(root);
    if root.manifest.Malformed? then Refused(InvalidManifest)
    else if exists name | name in active + expires.Keys :: !HashedName(name) || name !in root.assets then Refused(InvalidEntry)
    else if exists name | name in expires.Keys :: expires[name].NotFinite? then Refused(InvalidExpiry)
    else Done(Stock(active, map name | name in expires.Keys :: expires[name].at))
  }

  // ------------------------------------------------------- one run's value

  /** The later of the stored and the seeded deadline. */
  function Merged(stored: map<Name, real>, seeded: map<Name, real>): map<Name, real> {
    map name | name in stored.Keys + seeded.Keys ::
      if name !in seeded then stored[name]
      else if name in stored && stored[name] > seeded[name] then stored[name]
      else seeded[name]
  }

  function Stamped(expires: map<Name, real>, retired: set<Name>, deadline: real): map<Name, real> {
    map name | name in expires.Keys + retired :: if name in retired then deadline else expires[name]
  }

  function Live(expires: map<Name, real>, current: set<Name>, now: real): map<Name, real> {
    map name | name in expires.Keys && name !in current && expires[name] > now :: expires[name]
  }

  function Capped(expires: map<Name, real>, cap: nat): map<Name, real> {
    var newest := NewestReleases(expires.Values, cap);
    map name | name in expires.Keys && expires[name] in newest :: expires[name]
  }

  /** Deadlines before the cap is applied. */
  function Candidates(source: Stock, previous: Stock, now: real, grace: real): map<Name, real> {
    Live(Stamped(Merged(previous.expires, source.expires), previous.active - source.active, now + grace), source.active, now)
  }

  function Schedule(source: Stock, previous: Stock, now: real, grace: real, cap: nat): map<Name, real> {
    Capped(Candidates(source, previous, now, grace), cap)
  }

  function Written(active: set<Name>, expires: map<Name, real>): Manifest {
    Listed(active, map name | name in expires.Keys :: Finite(expires[name]))
  }

  /** Everything on disk once the copies are made and before anything is deleted. */
  function Copied(source: Root, assets: map<Name, seq<Byte>>, keep: set<Name>): map<Name, seq<Byte>> {
    assets + map name | name in keep && name in source.assets && name !in assets :: source.assets[name]
  }

  predicate Collides(source: Root, assets: map<Name, seq<Byte>>, keep: set<Name>) {
    exists name | name in keep :: name in source.assets && name in assets && source.assets[name] != assets[name]
  }

  /** What a run decides before it writes: the active names and the retained deadlines. */
  function Decide(source: Root, destination: Root, now: real, grace: real, cap: int): Outcome<Stock> {
    if grace <= 0.0 then Refused(BadGrace)
    else if cap < 1 then Refused(BadCap)
    else
      var current := Inventory(source);
      if current.Refused? then current
      else
        var previous := Inventory(destination);
        if previous.Refused? then previous
        else
          var expires := Schedule(current.value, previous.value, now, grace, cap);
          if Collides(source, destination.assets, current.value.active + expires.Keys) then Refused(Collision)
          else Done(Stock(current.value.active, expires))
  }

  function Keep(stock: Stock): set<Name> { stock.active + stock.expires.Keys }

  function Finished(source: Root, destination: Root, plan: Stock): Root {
    Root(Restrict(Copied(source, destination.assets, Keep(plan)), Keep(plan)), Written(plan.active, plan.expires))
  }

  /** The destination after a run: unchanged when the run is refused. */
  function Retain(source: Root, destination: Root, now: real, grace: real, cap: int): Outcome<Root> {
    var plan := Decide(source, destination, now, grace, cap);
    if plan.Refused? then Refused(plan.why) else Done(Finished(source, destination, plan.value))
  }

  /** Between two copies: the old manifest, the old files and some of the copies. */
  ghost predicate Copying(source: Root, destination: Root, plan: Stock, disk: Root) {
    && disk.manifest == destination.manifest
    && Submap(destination.assets, disk.assets) && Submap(disk.assets, Copied(source, destination.assets, Keep(plan)))
  }

  /** Between two deletions: the new manifest and at least the files it lists. */
  ghost predicate Deleting(source: Root, destination: Root, plan: Stock, disk: Root) {
    var copied := Copied(source, destination.assets, Keep(plan));
    && disk.manifest == Written(plan.active, plan.expires)
    && Submap(Restrict(copied, Keep(plan)), disk.assets) && Submap(disk.assets, copied)
  }

  /** The disk at some point between two atomic writes of a run. */
  ghost predicate DuringRun(source: Root, destination: Root, plan: Stock, disk: Root) {
    Copying(source, destination, plan, disk) || Deleting(source, destination, plan, disk)
  }

  // ------------------------------------------------------- the script itself

  /** From index `start` on, every recorded disk is one of this run's. */
  ghost predicate AllDuring(source: Root, destination: Root, plan: Stock, trace: seq<Root>, start: nat) {
    forall i | start <= i < |trace| :: DuringRun(source, destination, plan, trace[i])
  }

  lemma CopyStep(source: Root, assets: map<Name, seq<Byte>>, made: set<Name>, name: Name)
    ensures Copied(source, assets, made + {name}) ==
            if name in source.assets && name !in Copied(source, assets, made)
            then Copied(source, assets, made)[name := source.assets[name]] else Copied(source, assets, made)
  {
  }

  lemma CopyLeft(source: Root, assets: map<Name, seq<Byte>>, keep: set<Name>, todo: set<Name>, name: Name)
    requires name in todo && todo <= keep
    ensures Copied(source, assets, keep - (todo - {name})) ==
            if name in source.assets && name !in Copied(source, assets, keep - todo)
            then Copied(source, assets, keep - todo)[name := source.assets[name]] else Copied(source, assets, keep - todo)
  {
    assert keep - (todo - {name}) == (keep - todo) + {name};
    CopyStep(source, assets, keep - todo, name);
  }

  lemma RestrictStep(assets: map<Name, seq<Byte>>, keep: set<Name>, todo: set<Name>, name: Name)
    ensures name in keep ==> Restrict(assets, keep + (todo - {name})) == Restrict(assets, keep + todo)
    ensures name !in keep ==> Restrict(assets, keep + (todo - {name})) == Restrict(assets, keep + todo) - {name}
  {
  }

  lemma CopyingIsDuring(source: Root, destination: Root, plan: Stock, made: set<Name>)
    requires made <= Keep(plan)
    ensures DuringRun(source, destination, plan, Root(Copied(source, destination.assets, made), destination.manifest))
  {
  }

  lemma DeletingIsDuring(source: Root, destination: Root, plan: Stock, left: set<Name>)
    requires Keep(plan) <= left
    ensures DuringRun(source, destination, plan,
                      Root(Restrict(Copied(source, destination.assets, Keep(plan)), left), Written(plan.active, plan.expires)))
  {
  }

  method MergeSeeds(stored: map<Name, real>, seeded: map<Name, real>) returns (expires: map<Name, real>)
    ensures expires == Merged(stored, seeded)
  {
    expires := stored;
    var todo := seeded.Keys;
    while todo != {}
      invariant todo <= seeded.Keys
      invariant expires == Merged(stored, Restrict(seeded, seeded.Keys - todo))
    {
      var name :| name in todo;
      var latest := if name in expires && expires[name] > seeded[name] then expires[name] else seeded[name];
      expires, todo := expires[name := latest], todo - {name};
    }
    assert Restrict(seeded, seeded.Keys - todo) == seeded;
  }

  method StampRetired(seeded: map<Name, real>, retired: set<Name>, deadline: real) returns (expires: map<Name, real>)
    ensures expires == Stamped(seeded, retired, deadline)
  {
    expires := seeded;
    var todo := retired;
    while todo != {}
      invariant todo <= retired
      invariant expires == Stamped(seeded, retired - todo, deadline)
    {
      var name :| name in todo;
      expires, todo := expires[name := deadline], todo - {name};
    }
  }

  method Clashes(source: Root, assets: map<Name, seq<Byte>>, keep: set<Name>) returns (clash: bool)
    ensures clash == Collides(source, assets, keep)
  {
    var todo := keep;
    while todo != {}
      invariant todo <= keep
      invariant !Collides(source, assets, keep - todo)
    {
      var name :| name in todo;
      if name in source.assets && name in assets && source.assets[name] != assets[name] {
        return true;
      }
      todo := todo - {name};
    }
    return false;
  }

  method CollectDeadlines(source: Stock, previous: Stock, now: real, grace: real) returns (expires: map<Name, real>)
    ensures expires == Candidates(source, previous, now, grace)
  {
    var merged := MergeSeeds(previous.expires, source.expires);
    var stamped := StampRetired(merged, previous.active - source.active, now + grace);
    expires := Live(stamped, source.active, now);
  }

  method Timetable(source: Stock, previous: Stock, now: real, grace: real, cap: nat) returns (expires: map<Name, real>)
    ensures expires == Schedule(source, previous, now, grace, cap)
  {
    expires := CollectDeadlines(source, previous, now, grace);
    expires := Capped(expires, cap);
  }

  method Prepare(source: Root, destination: Root, now: real, grace: real, cap: int) returns (plan: Outcome<Stock>)
    ensures plan == Decide(source, destination, now, grace, cap)
  {
    if grace <= 0.0 { return Refused(BadGrace); }
    if cap < 1 { return Refused(BadCap); }
    var current := Inventory(source);
    if current.Refused? { return current; }
    var previous := Inventory(destination);
    if previous.Refused? { return previous; }
    var expires := Timetable(current.value, previous.value, now, grace, cap);
    var clash := Clashes(source, destination.assets, current.value.active + expires.Keys);
    return if clash then Refused(Collision) else Done(Stock(current.value.active, expires));
  }

  class Store {
    var assets: map<Name, seq<Byte>>
    var manifest: Manifest
    /** The disk after each atomic write: every state an interruption can leave. */
    ghost var trace: seq<Root>

    constructor ()
      ensures Disk() == EMPTY && trace == []
    {
      assets, manifest, trace := map[], Absent, [];
    }

    function Disk(): Root
      reads this
    {
      Root(assets, manifest)
    }

    method ReplaceAsset(name: Name, data: seq<Byte>)
      modifies this
      ensures Disk() == Root(old(assets)[name := data], old(manifest)) && trace == old(trace) + [Disk()]
    {
      assets := assets[name := data];
      trace := trace + [Disk()];
    }

    method ReplaceManifest(written: Manifest)
      modifies this
      ensures Disk() == Root(old(assets), written) && trace == old(trace) + [Disk()]
    {
      manifest := written;
      trace := trace + [Disk()];
    }

    method Unlink(name: Name)
      modifies this
      ensures Disk() == Root(old(assets) - {name}, old(manifest)) && trace == old(trace) + [Disk()]
    {
      assets := assets - {name};
      trace := trace + [Disk()];
    }

    /** `for name in keep: copy it unless it is there`, in any order. */
    method CopyMissing(source: Root, plan: Stock)
      modifies this
      ensures Disk() == Root(Copied(source, old(assets), Keep(plan)), old(manifest))
      ensures old(trace) <= trace && AllDuring(source, old(Disk()), plan, trace, |old(trace)|)
    {
      ghost var before := Disk();
      var todo := Keep(plan);
      while todo != {}
        invariant todo <= Keep(plan)
        invariant Disk() == Root(Copied(source, before.assets, Keep(plan) - todo), before.manifest)
        invariant old(trace) <= trace && AllDuring(source, before, plan, trace, |old(trace)|)
      {
        var name :| name in todo;
        CopyLeft(source, before.assets, Keep(plan), todo, name);
        CopyingIsDuring(source, before, plan, Keep(plan) - (todo - {name}));
        todo := todo - {name};
        if name in source.assets && name !in assets {
          ReplaceAsset(name, source.assets[name]);
        }
      }
    }

    /** `for path in assets: unlink it unless it is kept`, in any order. */
    method DeleteRest(source: Root, plan: Stock, ghost before: Root)
      requires Disk() == Root(Copied(source, before.assets, Keep(plan)), Written(plan.active, plan.expires))
      modifies this
      ensures Disk() == Finished(source, before, plan)
      ensures old(trace) <= trace && AllDuring(source, before, plan, trace, |old(trace)|)
    {
      ghost var copied := assets;
      var todo := assets.Keys;
      while todo != {}
        invariant todo <= copied.Keys
        invariant Disk() == Root(Restrict(copied, Keep(plan) + todo), Written(plan.active, plan.expires))
        invariant old(trace) <= trace && AllDuring(source, before, plan, trace, |old(trace)|)
      {
        var name :| name in todo;
        RestrictStep(copied, Keep(plan), todo, name);
        todo := todo - {name};
        DeletingIsDuring(source, before, plan, Keep(plan) + todo);
        if name !in Keep(plan) {
          Unlink(name);
        }
      }
      assert Keep(plan) + todo == Keep(plan);
    }

    method CarryOut(source: Root, plan: Stock)
      modifies this
      ensures Disk() == Finished(source, old(Disk()), plan)
      ensures old(trace) <= trace && AllDuring(source, old(Disk()), plan, trace, |old(trace)|)
    {
      ghost var before := Disk();
      CopyMissing(source, plan);
      DeletingIsDuring(source, before, plan, assets.Keys + Keep(plan));
      assert assets == Restrict(assets, assets.Keys + Keep(plan));
      ReplaceManifest(Written(plan.active, plan.expires));
      DeleteRest(source, plan, before);
    }

    /** One run.  `refused` stands for the ValueError the script raises before any write. */
    method RetainAssets(source: Root, now: real, grace: real, cap: int) returns (refused: bool)
      modifies this
      ensures var outcome := Retain(source, old(Disk()), now, grace, cap);
              refused == outcome.Refused? && Disk() == if refused then old(Disk()) else outcome.value
      ensures refused ==> trace == old(trace)
      ensures !refused ==>
        old(trace) <= trace &&
        AllDuring(source, old(Disk()), Decide(source, old(Disk()), now, grace, cap).value, trace, |old(trace)|)
    {
      var plan := Prepare(source, Disk(), now, grace, cap);
      if plan.Refused? { return true; }
      CarryOut(source, plan.value);
      return false;
    }
  }
}
