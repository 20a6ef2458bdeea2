/** What asset retention promises over whole histories of deployments
    (frontend/scripts/retain-assets.py), interrupted runs included. */
module AssetHistory {

  import opened Containers
  import opened AssetRetention

  // ------------------------------------------------------------- one run

  ghost predicate Bounded(expires: map<Name, real>, limit: real) {
    forall name | name in expires :: expires[name] <= limit
  }

  lemma InventoryFacts(root: Root, stock: Stock)
    requires Inventory(root) == Done(stock)
    ensures Keep(stock) <= root.assets.Keys
    ensures forall name | name in Keep(stock) :: HashedName(name)
  {
  }

  /** A written manifest is read back as the plan it was written from. */
  lemma ReadBack(assets: map<Name, seq<Byte>>, plan: Stock)
    requires Keep(plan) <= assets.Keys
    requires forall name | name in Keep(plan) :: HashedName(name)
    ensures Inventory(Root(assets, Written(plan.active, plan.expires))) == Done(plan)
  {
    var root := Root(assets, Written(plan.active, plan.expires));
    var expires := ListedExpires(root);
    assert expires.Keys == plan.expires.Keys;
    assert (map name | name in expires.Keys :: expires[name].at) == plan.expires;
  }

  // ------------------------------------------------------ when a run is refused

  /** Capitals, small letters and digits. */
  predicate Plain(c: char) { 'A' <= c <= 'Z' || 'a' <= c <= 'z' || '0' <= c <= '9' }

  /** The regular expression's three parts. */
  ghost predicate HasParts(name: Name, stem: string, hash: string, suffix: string) {
    && name == stem + "-" + hash + "." + suffix && |stem| >= 1 && |hash| >= 8 && |suffix| >= 1
    && (forall i | 0 <= i < |stem| :: Plain(stem[i]) || stem[i] == '_' || stem[i] == '.' || stem[i] == '-')
    && (forall i | 0 <= i < |hash| :: Plain(hash[i]) || hash[i] == '_' || hash[i] == '-')
    && (forall i | 0 <= i < |suffix| :: Plain(suffix[i]) || suffix[i] == '.')
  }

  lemma PartsHashed(name: Name, stem: string, hash: string, suffix: string)
    requires HasParts(name, stem, hash, suffix)
    ensures HashedName(name)
  {
    var dash, dot := |stem|, |stem| + 1 + |hash|;
    assert name[dash] == '-' && name[dot] == '.';
    assert forall i | 0 <= i < dash :: name[i] == stem[i];
    assert forall i | dash < i < dot :: name[i] == hash[i - dash - 1];
    assert forall i | dot < i < |name| :: name[i] == suffix[i - dot - 1];
    assert HashedAt(name, dash, dot);
  }

  lemma HashedParts(name: Name)
    requires HashedName(name)
    ensures exists stem, hash, suffix :: HasParts(name, stem, hash, suffix)
  {
    var dash, dot :| 0 < dash < dot < |name| - 1 && HashedAt(name, dash, dot);
    CutAt(name, dash, dot);
    assert HasParts(name, name[..dash], name[dash + 1..dot], name[dot + 1..]);
  }

  lemma CutAt(name: Name, dash: int, dot: int)
    requires 0 < dash < dot < |name| && name[dash] == '-' && name[dot] == '.'
    ensures name == name[..dash] + "-" + name[dash + 1..dot] + "." + name[dot + 1..]
  {
    assert name[..dash] + "-" == name[..dash + 1];
    assert name[..dash + 1] + name[dash + 1..dot] == name[..dot];
    assert name[..dot] + "." == name[..dot + 1];
  }

  /** A name is admitted exactly when it is a stem, a hyphen, a hash of eight characters or more, a dot
      and a suffix. */
  lemma HashedNameIff(name: Name)
    ensures HashedName(name) <==> exists stem, hash, suffix :: HasParts(name, stem, hash, suffix)
  {
    if stem, hash, suffix :| HasParts(name, stem, hash, suffix) {
      PartsHashed(name, stem, hash, suffix);
    }
    if HashedName(name) { HashedParts(name); }
  }

  ghost predicate Storable(root: Root, names: set<Name>) {
    forall name | name in names :: HashedName(name) && name in root.assets
  }

  ghost predicate AllFinite(expires: map<Name, Expiry>) { forall name | name in expires :: expires[name].Finite? }

  /** A folder without a manifest is read as one release; with one, every name it lists is a hashed file
      that is there and every deadline is a number. */
  lemma InventoryIff(root: Root)
    ensures match root.manifest
      case Malformed => Inventory(root) == Refused(InvalidManifest)
      case Absent => Inventory(root) ==
        if Storable(root, root.assets.Keys) then Done(Stock(root.assets.Keys, map[])) else Refused(InvalidEntry)
      case Listed(active, expires) =>
        && (Inventory(root).Done? <==> Storable(root, active) && Storable(root, expires.Keys) && AllFinite(expires))
        && (Inventory(root) == Refused(InvalidExpiry) <==> Storable(root, active) && Storable(root, expires.Keys) && !AllFinite(expires))
  {
  }

  lemma InventoryValue(root: Root)
    requires root.manifest.Listed? && Inventory(root).Done?
    ensures var stock := Inventory(root).value;
      && stock.active == root.manifest.active && stock.expires.Keys == root.manifest.expires.Keys
      && forall name | name in stock.expires :: root.manifest.expires[name] == Finite(stock.expires[name])
  {
  }

  /** Every file in both folders that the run would keep has the same bytes in both. */
  ghost predicate BytesAgree(source: Root, destination: Root, now: real, grace: real, cap: nat)
    requires Inventory(source).Done? && Inventory(destination).Done?
  {
    var current, previous := Inventory(source).value, Inventory(destination).value;
    forall name | name in source.assets && name in destination.assets
        && (name in current.active || name in Schedule(current, previous, now, grace, cap)) ::
      source.assets[name] == destination.assets[name]
  }

  lemma CollidesIff(source: Root, destination: Root, now: real, grace: real, cap: nat)
    requires Inventory(source).Done? && Inventory(destination).Done?
    ensures var current, previous := Inventory(source).value, Inventory(destination).value;
      Collides(source, destination.assets, current.active + Schedule(current, previous, now, grace, cap).Keys) <==>
      !BytesAgree(source, destination, now, grace, cap)
  {
  }

  /** A run goes ahead if and only if its arguments are positive, both folders are readable and no kept
      file differs; what it then plans is the release and the schedule. */
  lemma DecideIff(source: Root, destination: Root, now: real, grace: real, cap: int)
    ensures Decide(source, destination, now, grace, cap).Done? <==>
      && grace > 0.0 && cap >= 1 && Inventory(source).Done? && Inventory(destination).Done?
      && BytesAgree(source, destination, now, grace, cap)
    ensures Decide(source, destination, now, grace, cap).Done? ==>
      Decide(source, destination, now, grace, cap).value ==
      Stock(Inventory(source).value.active, Schedule(Inventory(source).value, Inventory(destination).value, now, grace, cap))
  {
    if cap >= 1 && Inventory(source).Done? && Inventory(destination).Done? {
      CollidesIff(source, destination, now, grace, cap);
    }
  }

  /** The reason is the first check that fails. */
  lemma WhyRefused(source: Root, destination: Root, now: real, grace: real, cap: int)
    requires Decide(source, destination, now, grace, cap).Refused?
    ensures Decide(source, destination, now, grace, cap).why ==
      if grace <= 0.0 then BadGrace
      else if cap < 1 then BadCap
      else if Inventory(source).Refused? then Inventory(source).why
      else if Inventory(destination).Refused? then Inventory(destination).why
      else Collision
  {
  }

  /** The deadline a name has before the cap is applied: the full grace period if its release is
      retired now, else the later of the two it came with. */
  function Deadline(source: Stock, previous: Stock, now: real, grace: real, name: Name): real
    requires name in Keep(previous) + source.expires.Keys
    requires name !in source.active
  {
    if name in previous.active then now + grace
    else if name in previous.expires && name in source.expires && previous.expires[name] < source.expires[name] then source.expires[name]
    else if name in previous.expires then previous.expires[name]
    else source.expires[name]
  }

  lemma CandidateIff(source: Stock, previous: Stock, now: real, grace: real, name: Name)
    ensures name in Candidates(source, previous, now, grace) <==>
            name in Keep(previous) + source.expires.Keys && name !in source.active && Deadline(source, previous, now, grace, name) > now
    ensures name in Candidates(source, previous, now, grace) ==>
            Candidates(source, previous, now, grace)[name] == Deadline(source, previous, now, grace, name)
  {
  }

  /** A retired name is kept exactly when it has not expired and fewer than `cap`
      distinct live deadlines are later than its own. */
  lemma KeptIff(source: Stock, previous: Stock, now: real, grace: real, cap: nat, name: Name)
    ensures name in Schedule(source, previous, now, grace, cap) <==>
            && name in Keep(previous) + source.expires.Keys && name !in source.active
            && Deadline(source, previous, now, grace, name) > now
            && |Larger(Candidates(source, previous, now, grace).Values, Deadline(source, previous, now, grace, name))| < cap
    ensures name in Schedule(source, previous, now, grace, cap) ==>
            Schedule(source, previous, now, grace, cap)[name] == Deadline(source, previous, now, grace, name)
  {
    var candidates := Candidates(source, previous, now, grace);
    CandidateIff(source, previous, now, grace, name);
    if name in candidates {
      assert candidates[name] in candidates.Values;
      NewestIffFewLarger(candidates.Values, cap, candidates[name]);
    }
  }

  /** At most `cap` distinct deadlines survive. */
  lemma ScheduleWithinCap(source: Stock, previous: Stock, now: real, grace: real, cap: nat)
    ensures |Schedule(source, previous, now, grace, cap).Values| <= cap
  {
    var candidates := Candidates(source, previous, now, grace);
    var newest := NewestReleases(candidates.Values, cap);
    NewestSize(candidates.Values, cap);
    SubsetSize(Capped(candidates, cap).Values, newest);
  }

  lemma ScheduleBounded(source: Stock, previous: Stock, now: real, grace: real, cap: nat)
    requires Bounded(previous.expires, now + grace) && Bounded(source.expires, now + grace)
    ensures Bounded(Schedule(source, previous, now, grace, cap), now + grace)
  {
    forall name | name in Schedule(source, previous, now, grace, cap)
      ensures Schedule(source, previous, now, grace, cap)[name] <= now + grace
    {
      DueBounded(source, previous, now, grace, cap, name);
    }
  }

  lemma DueBounded(source: Stock, previous: Stock, now: real, grace: real, cap: nat, name: Name)
    requires Bounded(previous.expires, now + grace) && Bounded(source.expires, now + grace)
    requires name in Schedule(source, previous, now, grace, cap)
    ensures Schedule(source, previous, now, grace, cap)[name] <= now + grace
  {
    KeptIff(source, previous, now, grace, cap, name);
  }

  /** The release just retired keeps the latest deadline, so the cap never reaches it. */
  lemma RetiredReleaseKept(source: Stock, previous: Stock, now: real, grace: real, cap: nat, name: Name)
    requires grace > 0.0 && cap >= 1
    requires Bounded(previous.expires, now + grace) && Bounded(source.expires, now + grace)
    requires name in previous.active - source.active
    ensures name in Schedule(source, previous, now, grace, cap)
    ensures Schedule(source, previous, now, grace, cap)[name] == now + grace
  {
    var candidates := Candidates(source, previous, now, grace);
    forall other | other in candidates ensures candidates[other] <= now + grace {
      CandidateIff(source, previous, now, grace, other);
    }
    assert Larger(candidates.Values, now + grace) == {};
    KeptIff(source, previous, now, grace, cap, name);
  }

  /** Everything a run keeps is on disk once its copies are made, under a valid name. */
  lemma KeptArePresent(source: Root, destination: Root, now: real, grace: real, cap: int, plan: Stock)
    requires Decide(source, destination, now, grace, cap) == Done(plan)
    ensures Keep(plan) <= Copied(source, destination.assets, Keep(plan)).Keys
    ensures forall name | name in Keep(plan) :: HashedName(name)
    ensures plan.active !! plan.expires.Keys
  {
    var current, previous := Inventory(source).value, Inventory(destination).value;
    InventoryFacts(source, current);
    InventoryFacts(destination, previous);
    forall name | name in Keep(plan)
      ensures name in source.assets || name in destination.assets
      ensures HashedName(name)
      ensures name in plan.expires ==> name !in plan.active
    {
      KeptIff(current, previous, now, grace, cap, name);
    }
  }

  lemma FinishedBytes(source: Root, destination: Root, plan: Stock)
    requires !Collides(source, destination.assets, Keep(plan)) && Keep(plan) <= Copied(source, destination.assets, Keep(plan)).Keys
    ensures var after := Finished(source, destination, plan);
      && after.assets.Keys == Keep(plan)
      && (forall name | name in after.assets && name in destination.assets :: after.assets[name] == destination.assets[name])
      && (forall name | name in after.assets && name in source.assets :: after.assets[name] == source.assets[name])
  {
  }

  /** Contents of the finished destination: the kept names only, active ones with the
      source's bytes, names that were there before with the bytes they had. */
  lemma FinishedContents(source: Root, destination: Root, now: real, grace: real, cap: int, plan: Stock)
    requires Decide(source, destination, now, grace, cap) == Done(plan)
    ensures var after := Finished(source, destination, plan);
      && after.assets.Keys == Keep(plan)
      && Inventory(after) == Done(plan)
      && (forall name | name in plan.active :: name in source.assets && after.assets[name] == source.assets[name])
      && (forall name | name in after.assets && name in destination.assets :: after.assets[name] == destination.assets[name])
      && (forall name | name in after.assets && name in source.assets :: after.assets[name] == source.assets[name])
  {
    KeptArePresent(source, destination, now, grace, cap, plan);
    InventoryFacts(source, Inventory(source).value);
    FinishedBytes(source, destination, plan);
    ReadBack(Finished(source, destination, plan).assets, plan);
  }

  // ------------------------------------------------------- interrupted runs

  /** What a killed write may leave beside `disk`: a temporary file, never under a hashed name. */
  ghost predicate Leftover(disk: Root, after: Root) {
    && after.manifest == disk.manifest && Submap(disk.assets, after.assets)
    && forall name | name in after.assets && name !in disk.assets :: !HashedName(name)
  }

  /** Adding files never invalidates a manifest that was valid. */
  lemma MoreFilesStillValid(disk: Root, more: Root)
    requires disk.manifest.Listed? && Inventory(disk).Done?
    requires more.manifest == disk.manifest && disk.assets.Keys <= more.assets.Keys
    ensures Inventory(more) == Inventory(disk)
  {
  }

  lemma DeletingIsReadable(source: Root, destination: Root, now: real, grace: real, cap: int, plan: Stock, disk: Root, after: Root)
    requires Decide(source, destination, now, grace, cap) == Done(plan)
    requires Deleting(source, destination, plan, disk) && Leftover(disk, after)
    ensures Inventory(after) == Done(plan)
  {
    KeptArePresent(source, destination, now, grace, cap, plan);
    assert after == Root(after.assets, Written(plan.active, plan.expires));
    ReadBack(after.assets, plan);
  }

  /** Wherever a run is cut off, the manifest on disk is the old or the new one, it is valid
      (so every name it lists exists), and it says what it said when it was written. */
  lemma InterruptionIsReadable(source: Root, destination: Root, now: real, grace: real, cap: int, plan: Stock, disk: Root, after: Root)
    requires Decide(source, destination, now, grace, cap) == Done(plan)
    requires DuringRun(source, destination, plan, disk) && Leftover(disk, after)
    ensures || (after.manifest == destination.manifest && (after.manifest.Listed? ==> Inventory(after) == Inventory(destination)))
            || (after.manifest == Written(plan.active, plan.expires) && Inventory(after) == Done(plan))
  {
    if Deleting(source, destination, plan, disk) {
      DeletingIsReadable(source, destination, now, grace, cap, plan, disk, after);
    } else if after.manifest.Listed? {
      MoreFilesStillValid(destination, after);
    }
  }

  // ------------------------------------------------- histories of deployments

  /** One start of the script.  `completed` is false when it is killed part-way. */
  datatype Deploy = Deploy(source: Root, now: real, completed: bool)

  ghost predicate Step(before: Root, deploy: Deploy, grace: real, cap: int, after: Root) {
    var plan := Decide(deploy.source, before, deploy.now, grace, cap);
    if plan.Refused? then after == before
    else if deploy.completed then after == Finished(deploy.source, before, plan.value)
    else exists disk :: DuringRun(deploy.source, before, plan.value, disk) && Leftover(disk, after)
  }

  /** Deadlines an image carries were set by an earlier run with the same grace period. */
  ghost predicate SeedsBounded(deploy: Deploy, grace: real) {
    var stock := Inventory(deploy.source);
    stock.Done? ==> Bounded(stock.value.expires, deploy.now + grace)
  }

  ghost predicate History(states: seq<Root>, deploys: seq<Deploy>, grace: real, cap: int) {
    && |states| == |deploys| + 1 && states[0] == EMPTY
    && (forall i | 0 <= i < |deploys| :: SeedsBounded(deploys[i], grace) && Step(states[i], deploys[i], grace, cap, states[i + 1]))
    && (forall i, j | 0 <= i <= j < |deploys| :: deploys[i].now <= deploys[j].now)
  }

  /** What holds of the destination at every point of every history. */
  ghost predicate Sound(disk: Root, now: real, grace: real, cap: int) {
    && !disk.manifest.Malformed?
    && (disk.manifest.Listed? ==>
          var stock := Inventory(disk);
          && stock.Done? && stock.value.active !! stock.value.expires.Keys
          && Bounded(stock.value.expires, now + grace) && |stock.value.expires.Values| <= cap)
  }

  /** The deadlines found in a sound destination, a fresh one included. */
  lemma SoundStock(disk: Root, now: real, grace: real, cap: int, later: real)
    requires Sound(disk, now, grace, cap) && now <= later && Inventory(disk).Done?
    ensures Bounded(Inventory(disk).value.expires, later + grace)
  {
    if disk.manifest.Absent? { assert Inventory(disk).value.expires == map[]; }
  }

  lemma PlanIsSound(source: Root, destination: Root, now: real, grace: real, cap: int, plan: Stock)
    requires Decide(source, destination, now, grace, cap) == Done(plan)
    requires Bounded(Inventory(source).value.expires, now + grace) && Bounded(Inventory(destination).value.expires, now + grace)
    ensures plan.active !! plan.expires.Keys && Bounded(plan.expires, now + grace) && |plan.expires.Values| <= cap
  {
    KeptArePresent(source, destination, now, grace, cap, plan);
    ScheduleBounded(Inventory(source).value, Inventory(destination).value, now, grace, cap);
    ScheduleWithinCap(Inventory(source).value, Inventory(destination).value, now, grace, cap);
  }

  lemma StepKeepsSound(before: Root, deploy: Deploy, grace: real, cap: int, after: Root, earlier: real)
    requires Step(before, deploy, grace, cap, after) && SeedsBounded(deploy, grace)
    requires Sound(before, earlier, grace, cap) && earlier <= deploy.now
    ensures Sound(after, deploy.now, grace, cap)
  {
    var decision := Decide(deploy.source, before, deploy.now, grace, cap);
    if decision.Done? {
      var plan := decision.value;
      SoundStock(before, earlier, grace, cap, deploy.now);
      PlanIsSound(deploy.source, before, deploy.now, grace, cap, plan);
      if deploy.completed {
        FinishedContents(deploy.source, before, deploy.now, grace, cap, plan);
      } else {
        var disk :| DuringRun(deploy.source, before, plan, disk) && Leftover(disk, after);
        InterruptionIsReadable(deploy.source, before, deploy.now, grace, cap, plan, disk, after);
      }
    }
  }

  /** Every state of every history, after complete, refused and interrupted runs alike, is sound. */
  lemma {:induction false} EveryStateSound(states: seq<Root>, deploys: seq<Deploy>, grace: real, cap: int, i: nat)
    requires History(states, deploys, grace, cap) && i < |deploys|
    ensures Sound(states[i], deploys[i].now, grace, cap) && Sound(states[i + 1], deploys[i].now, grace, cap)
  {
    if i > 0 {
      EveryStateSound(states, deploys, grace, cap, i - 1);
      SoundLater(states[i], deploys[i - 1].now, grace, cap, deploys[i].now);
    }
    StepKeepsSound(states[i], deploys[i], grace, cap, states[i + 1], deploys[i].now);
  }

  lemma SoundLater(disk: Root, now: real, grace: real, cap: int, later: real)
    requires Sound(disk, now, grace, cap) && now <= later
    ensures Sound(disk, later, grace, cap)
  {
  }

  /** Every name in `names` is in both maps with the same bytes. */
  ghost predicate SameFiles(names: set<Name>, a: map<Name, seq<Byte>>, b: map<Name, seq<Byte>>) {
    forall name | name in names :: name in a && name in b && a[name] == b[name]
  }

  /** What a completed run leaves: the files are exactly the active and the expiring ones,
      those are disjoint, at most `cap` distinct deadlines remain, all in (now, now + grace],
      active files have the release's bytes, and every file of the release just retired is
      still there, unchanged. */
  ghost predicate CompletedWell(before: Root, source: Root, now: real, grace: real, cap: int, after: Root) {
    && Inventory(before).Done? && Inventory(source).Done? && Inventory(after).Done?
    && var previous, current, stock := Inventory(before).value, Inventory(source).value, Inventory(after).value;
    && stock.active == current.active
    && after.assets.Keys == stock.active + stock.expires.Keys
    && stock.active !! stock.expires.Keys
    && |stock.expires.Values| <= cap
    && (forall name | name in stock.expires :: now < stock.expires[name] <= now + grace)
    && SameFiles(stock.active, after.assets, source.assets)
    && SameFiles(previous.active, after.assets, before.assets)
  }

  lemma RunCompletesWell(before: Root, source: Root, now: real, grace: real, cap: int, plan: Stock)
    requires Decide(source, before, now, grace, cap) == Done(plan)
    requires Bounded(Inventory(source).value.expires, now + grace) && Bounded(Inventory(before).value.expires, now + grace)
    ensures CompletedWell(before, source, now, grace, cap, Finished(source, before, plan))
  {
    var current, previous := Inventory(source).value, Inventory(before).value;
    FinishedContents(source, before, now, grace, cap, plan);
    PlanIsSound(source, before, now, grace, cap, plan);
    InventoryFacts(before, previous);
    forall name | name in previous.active ensures name in Keep(plan) {
      if name !in current.active { RetiredReleaseKept(current, previous, now, grace, cap, name); }
    }
    forall name | name in plan.expires ensures plan.expires[name] > now {
      KeptIff(current, previous, now, grace, cap, name);
    }
  }

  /** A completed run does well wherever it comes in whatever history. */
  lemma CompletedRun(states: seq<Root>, deploys: seq<Deploy>, grace: real, cap: int, i: nat)
    requires History(states, deploys, grace, cap) && i < |deploys| && deploys[i].completed
    requires Decide(deploys[i].source, states[i], deploys[i].now, grace, cap).Done?
    ensures CompletedWell(states[i], deploys[i].source, deploys[i].now, grace, cap, states[i + 1])
  {
    var before, deploy := states[i], deploys[i];
    EveryStateSound(states, deploys, grace, cap, i);
    assert SeedsBounded(deploy, grace) && Step(before, deploy, grace, cap, states[i + 1]);
    SoundStock(before, deploy.now, grace, cap, deploy.now);
    RunCompletesWell(before, deploy.source, deploy.now, grace, cap, Decide(deploy.source, before, deploy.now, grace, cap).value);
  }

  // ------------------------------------------------------ immutable contents

  lemma KilledKeepsBytes(source: Root, before: Root, plan: Stock, disk: Root, after: Root, name: Name)
    requires DuringRun(source, before, plan, disk) && Leftover(disk, after)
    requires HashedName(name) && name in before.assets && name in after.assets
    ensures after.assets[name] == before.assets[name]
  {
    assert name in disk.assets;
  }

  lemma StepKeepsBytes(before: Root, deploy: Deploy, grace: real, cap: int, after: Root, name: Name)
    requires Step(before, deploy, grace, cap, after)
    requires HashedName(name) && name in before.assets && name in after.assets
    ensures after.assets[name] == before.assets[name]
  {
    var decision := Decide(deploy.source, before, deploy.now, grace, cap);
    if decision.Done? {
      if deploy.completed {
        FinishedContents(deploy.source, before, deploy.now, grace, cap, decision.value);
      } else {
        var disk :| DuringRun(deploy.source, before, decision.value, disk) && Leftover(disk, after);
        KilledKeepsBytes(deploy.source, before, decision.value, disk, after, name);
      }
    }
  }

  /** While a hashed name stays on disk its bytes never change, whatever is deployed or killed. */
  lemma {:induction false} BytesNeverChange(states: seq<Root>, deploys: seq<Deploy>, grace: real, cap: int, i: nat, j: nat, name: Name)
    requires History(states, deploys, grace, cap) && i <= j < |states| && HashedName(name)
    requires forall k | i <= k <= j :: name in states[k].assets
    ensures states[j].assets[name] == states[i].assets[name]
    decreases j
  {
    if i < j {
      BytesNeverChange(states, deploys, grace, cap, i, j - 1, name);
      StepKeepsBytes(states[j - 1], deploys[j - 1], grace, cap, states[j], name);
    }
  }

  // ------------------------------------------------------- grace is honoured

  /** At least `cap` distinct live deadlines are later than `deadline`. */
  ghost predicate Crowded(source: Stock, previous: Stock, now: real, grace: real, cap: nat, deadline: real) {
    |Larger(Candidates(source, previous, now, grace).Values, deadline)| >= cap
  }

  /** The run would still keep an asset due at `deadline`: too early, and not crowded out. */
  ghost predicate Spares(before: Root, deploy: Deploy, grace: real, cap: int, deadline: real) {
    && deploy.now < deadline
    && (Decide(deploy.source, before, deploy.now, grace, cap).Done? ==>
          !Crowded(Inventory(deploy.source).value, Inventory(before).value, deploy.now, grace, cap, deadline))
  }

  /** The manifest lists the name, as active or with a deadline no earlier than `deadline`. */
  ghost predicate Guarded(disk: Root, name: Name, deadline: real) {
    && disk.manifest.Listed? && Inventory(disk).Done?
    && var stock := Inventory(disk).value;
    && name in Keep(stock) && (name in stock.active || stock.expires[name] >= deadline)
  }

  lemma PlanGuards(source: Stock, previous: Stock, now: real, grace: real, cap: nat, name: Name, deadline: real)
    requires now < deadline <= now + grace && !Crowded(source, previous, now, grace, cap, deadline)
    requires name in previous.active || (name in previous.expires && previous.expires[name] >= deadline)
    requires name !in source.active
    ensures name in Schedule(source, previous, now, grace, cap)
    ensures Schedule(source, previous, now, grace, cap)[name] >= deadline
  {
    var values := Candidates(source, previous, now, grace).Values;
    var due := Deadline(source, previous, now, grace, name);
    SubsetSize(Larger(values, due), Larger(values, deadline));
    KeptIff(source, previous, now, grace, cap, name);
  }

  lemma StepGuards(before: Root, deploy: Deploy, grace: real, cap: int, after: Root, name: Name, deadline: real)
    requires Step(before, deploy, grace, cap, after)
    requires Guarded(before, name, deadline) && Spares(before, deploy, grace, cap, deadline) && deadline <= deploy.now + grace
    ensures Guarded(after, name, deadline)
  {
    var decision := Decide(deploy.source, before, deploy.now, grace, cap);
    if decision.Done? {
      var plan := decision.value;
      var current, previous := Inventory(deploy.source).value, Inventory(before).value;
      if name !in current.active {
        PlanGuards(current, previous, deploy.now, grace, cap, name, deadline);
      }
      if deploy.completed {
        FinishedContents(deploy.source, before, deploy.now, grace, cap, plan);
      } else {
        var disk :| DuringRun(deploy.source, before, plan, disk) && Leftover(disk, after);
        InterruptionIsReadable(deploy.source, before, deploy.now, grace, cap, plan, disk, after);
      }
    }
  }

  lemma GuardedIsPresent(disk: Root, name: Name, deadline: real)
    requires Guarded(disk, name, deadline)
    ensures name in disk.assets
  {
    InventoryFacts(disk, Inventory(disk).value);
  }

  /** Every run from the i-th up to the j-th spares an asset due at `deadline`. */
  ghost predicate SparedThrough(states: seq<Root>, deploys: seq<Deploy>, grace: real, cap: int, i: nat, j: nat, deadline: real)
    requires j < |states| == |deploys| + 1
  {
    forall k {:trigger deploys[k]} | i <= k < j :: Spares(states[k], deploys[k], grace, cap, deadline)
  }

  lemma HistoryGuards(states: seq<Root>, deploys: seq<Deploy>, grace: real, cap: int, k: nat, name: Name, deadline: real)
    requires History(states, deploys, grace, cap) && k < |deploys|
    requires Guarded(states[k], name, deadline) && Spares(states[k], deploys[k], grace, cap, deadline)
    requires deadline <= deploys[k].now + grace
    ensures Guarded(states[k + 1], name, deadline)
  {
    StepGuards(states[k], deploys[k], grace, cap, states[k + 1], name, deadline);
  }

  ghost predicate DueInTime(deploys: seq<Deploy>, grace: real, i: nat, j: nat, deadline: real)
    requires j <= |deploys|
  {
    forall k {:trigger deploys[k]} | i <= k < j :: deadline <= deploys[k].now + grace
  }

  /** A listed asset stays listed and on disk while the runs spare it. */
  lemma {:induction false} GuardedSurvives(states: seq<Root>, deploys: seq<Deploy>, grace: real, cap: int, i: nat, j: nat, name: Name, deadline: real)
    requires History(states, deploys, grace, cap) && i <= j < |states|
    requires Guarded(states[i], name, deadline) && SparedThrough(states, deploys, grace, cap, i, j, deadline)
    requires DueInTime(deploys, grace, i, j, deadline)
    ensures Guarded(states[j], name, deadline)
    decreases j
  {
    if i < j {
      GuardedSurvives(states, deploys, grace, cap, i, j - 1, name, deadline);
      HistoryGuards(states, deploys, grace, cap, j - 1, name, deadline);
    }
  }

  /** A deadline within grace of one run is within grace of the later ones. */
  lemma StaysInTime(states: seq<Root>, deploys: seq<Deploy>, grace: real, cap: int, i: nat, j: nat, deadline: real)
    requires History(states, deploys, grace, cap) && i < j < |states| && deadline <= deploys[i].now + grace
    ensures DueInTime(deploys, grace, i, j, deadline)
  {
  }

  /** The manifest lists the name as retired, due at `deadline` or later. */
  ghost predicate Retired(disk: Root, name: Name, deadline: real) {
    && disk.manifest.Listed? && Inventory(disk).Done?
    && var stock := Inventory(disk).value;
    && name in stock.expires && stock.expires[name] >= deadline
  }

  /** A retired asset stays on disk, whatever else is deployed, refused or killed, until a run
      at or after its deadline, or a run that sees `cap` later releases still live. */
  lemma RetiredAssetSurvives(states: seq<Root>, deploys: seq<Deploy>, grace: real, cap: int, i: nat, j: nat, name: Name, deadline: real)
    requires History(states, deploys, grace, cap) && i <= j < |states|
    requires Retired(states[i], name, deadline) && SparedThrough(states, deploys, grace, cap, i, j, deadline)
    ensures Guarded(states[j], name, deadline) && name in states[j].assets
  {
    if i < j {
      EveryStateSound(states, deploys, grace, cap, i);
      StaysInTime(states, deploys, grace, cap, i, j, deadline);
    }
    GuardedSurvives(states, deploys, grace, cap, i, j, name, deadline);
    GuardedIsPresent(states[j], name, deadline);
  }

  // --------------------------------------------------------------- re-runs

  /** Seeds are never later than the deadline a run gives the name. */
  lemma SeedNotLater(source: Stock, previous: Stock, now: real, grace: real, name: Name)
    requires Bounded(source.expires, now + grace) && name in source.expires && name !in source.active
    ensures Deadline(source, previous, now, grace, name) >= source.expires[name]
  {
  }

  lemma RerunKeeps(source: Stock, previous: Stock, now: real, grace: real, cap: nat, name: Name)
    requires Bounded(source.expires, now + grace)
    requires name in Schedule(source, previous, now, grace, cap)
    ensures var first := Schedule(source, previous, now, grace, cap);
            var second := Schedule(source, Stock(source.active, first), now, grace, cap);
            name in second && second[name] == first[name]
  {
    var first := Schedule(source, previous, now, grace, cap);
    var again := Stock(source.active, first);
    var one, two := Candidates(source, previous, now, grace).Values, Candidates(source, again, now, grace).Values;
    KeptIff(source, previous, now, grace, cap, name);
    if name in source.expires { SeedNotLater(source, previous, now, grace, name); }
    assert Deadline(source, again, now, grace, name) == first[name];
    forall w | w in Larger(two, first[name]) ensures w in Larger(one, first[name]) {
      RerunValue(source, previous, now, grace, cap, name, w);
    }
    SubsetSize(Larger(two, first[name]), Larger(one, first[name]));
    KeptIff(source, again, now, grace, cap, name);
  }

  /** Any later deadline a second run sees, the first run saw too. */
  lemma RerunValue(source: Stock, previous: Stock, now: real, grace: real, cap: nat, name: Name, w: real)
    requires Bounded(source.expires, now + grace)
    requires name in Schedule(source, previous, now, grace, cap)
    requires var first := Schedule(source, previous, now, grace, cap);
             w in Candidates(source, Stock(source.active, first), now, grace).Values && w > first[name]
    ensures w in Candidates(source, previous, now, grace).Values
  {
    var first := Schedule(source, previous, now, grace, cap);
    var again := Stock(source.active, first);
    var one, two := Candidates(source, previous, now, grace), Candidates(source, again, now, grace);
    var other :| other in two && two[other] == w;
    CandidateIff(source, again, now, grace, other);
    CandidateIff(source, previous, now, grace, other);
    KeptIff(source, previous, now, grace, cap, other);
    KeptIff(source, previous, now, grace, cap, name);
    if other in source.expires { SeedNotLater(source, previous, now, grace, other); }
    if other in first {
      assert one[other] == w;
    } else {
      SubsetSize(Larger(one.Values, one[other]), Larger(one.Values, first[name]));
    }
  }

  /** The newest deadlines of the first run are all seen again, and all exceed a dropped one. */
  lemma NewestSeenAgain(source: Stock, previous: Stock, now: real, grace: real, cap: nat, due: real, v: real)
    requires Bounded(source.expires, now + grace)
    requires v in NewestReleases(Candidates(source, previous, now, grace).Values, cap)
    requires |Larger(Candidates(source, previous, now, grace).Values, due)| >= cap
    ensures v > due
    ensures v in Candidates(source, Stock(source.active, Schedule(source, previous, now, grace, cap)), now, grace).Values
  {
    var one := Candidates(source, previous, now, grace);
    NewestIffFewLarger(one.Values, cap, v);
    if v <= due { SubsetSize(Larger(one.Values, due), Larger(one.Values, v)); }
    var other :| other in one && one[other] == v;
    RerunKeeps(source, previous, now, grace, cap, other);
  }

  lemma RerunDrops(source: Stock, previous: Stock, now: real, grace: real, cap: nat, name: Name)
    requires Bounded(source.expires, now + grace)
    requires name !in Schedule(source, previous, now, grace, cap)
    ensures name !in Schedule(source, Stock(source.active, Schedule(source, previous, now, grace, cap)), now, grace, cap)
  {
    var again := Stock(source.active, Schedule(source, previous, now, grace, cap));
    KeptIff(source, again, now, grace, cap, name);
    if name in source.expires && name !in source.active && source.expires[name] > now {
      var one, two := Candidates(source, previous, now, grace).Values, Candidates(source, again, now, grace).Values;
      var due := Deadline(source, previous, now, grace, name);
      SeedNotLater(source, previous, now, grace, name);
      KeptIff(source, previous, now, grace, cap, name);
      var newest := NewestReleases(one, cap);
      NewestSize(one, cap);
      SubsetSize(Larger(one, due), one);
      forall v | v in newest ensures v in Larger(two, source.expires[name]) {
        NewestSeenAgain(source, previous, now, grace, cap, due, v);
      }
      SubsetSize(newest, Larger(two, source.expires[name]));
    }
  }

  lemma RerunAgrees(source: Stock, previous: Stock, now: real, grace: real, cap: nat, name: Name)
    requires Bounded(source.expires, now + grace)
    ensures var first := Schedule(source, previous, now, grace, cap);
            AgreeAt(Schedule(source, Stock(source.active, first), now, grace, cap), first, name)
  {
    if name in Schedule(source, previous, now, grace, cap) {
      RerunKeeps(source, previous, now, grace, cap, name);
    } else {
      RerunDrops(source, previous, now, grace, cap, name);
    }
  }

  lemma RerunSchedule(source: Stock, previous: Stock, now: real, grace: real, cap: nat)
    requires Bounded(source.expires, now + grace)
    ensures var first := Schedule(source, previous, now, grace, cap);
            Schedule(source, Stock(source.active, first), now, grace, cap) == first
  {
    var first := Schedule(source, previous, now, grace, cap);
    forall name { RerunAgrees(source, previous, now, grace, cap, name); }
    SameMap(Schedule(source, Stock(source.active, first), now, grace, cap), first);
  }

  lemma SettledDisk(source: Root, after: Root, plan: Stock)
    requires after.assets.Keys == Keep(plan) && after.manifest == Written(plan.active, plan.expires)
    requires forall name | name in after.assets && name in source.assets :: after.assets[name] == source.assets[name]
    ensures Finished(source, after, plan) == after && !Collides(source, after.assets, Keep(plan))
  {
    assert Finished(source, after, plan).assets == after.assets;
  }

  /** Running again with the same source at the same time changes nothing. */
  lemma RerunChangesNothing(source: Root, destination: Root, now: real, grace: real, cap: int, after: Root)
    requires Retain(source, destination, now, grace, cap) == Done(after)
    requires Bounded(Inventory(source).value.expires, now + grace)
    ensures Retain(source, after, now, grace, cap) == Done(after)
  {
    var plan := Decide(source, destination, now, grace, cap).value;
    FinishedContents(source, destination, now, grace, cap, plan);
    SettledDisk(source, after, plan);
    RerunSchedule(Inventory(source).value, Inventory(destination).value, now, grace, cap);
  }

  // -------------------------------------------------- a blocked bootstrap

  /** A destination without a manifest that holds a file under any other name. */
  ghost predicate Blocked(disk: Root) {
    disk.manifest.Absent? && exists name | name in disk.assets :: !HashedName(name)
  }

  /** A blocked destination never changes again: every later run refuses. */
  lemma {:induction false} BlockedForever(states: seq<Root>, deploys: seq<Deploy>, grace: real, cap: int, i: nat, j: nat)
    requires History(states, deploys, grace, cap) && i <= j < |states|
    requires Blocked(states[i])
    ensures states[j] == states[i]
    decreases j
  {
    if i < j {
      BlockedForever(states, deploys, grace, cap, i, j - 1);
      BlockedStep(states[j - 1], deploys[j - 1], grace, cap);
    }
  }

  const LEFT: Root := Root(map["tmp0" := []], Absent)

  lemma LeftBehind()
    ensures Leftover(EMPTY, LEFT) && Blocked(LEFT)
  {
    assert "tmp0" in LEFT.assets && !HashedName("tmp0");
  }

  lemma NothingWrittenYet(source: Root, plan: Stock)
    ensures DuringRun(source, EMPTY, plan, EMPTY)
  {
  }

  /** A first run with a file to copy, killed while it writes the first, reaches such a state. */
  lemma KilledFirstRunBlocks(source: Root, now: real, grace: real, cap: int)
    requires Decide(source, EMPTY, now, grace, cap).Done? && Keep(Decide(source, EMPTY, now, grace, cap).value) != {}
    ensures Step(EMPTY, Deploy(source, now, false), grace, cap, LEFT) && Blocked(LEFT)
  {
    LeftBehind();
    NothingWrittenYet(source, Decide(source, EMPTY, now, grace, cap).value);
  }

  /** Without a manifest a destination is readable exactly when it is not blocked. */
  lemma ReadableIffUnblocked(disk: Root)
    requires disk.manifest.Absent?
    ensures Inventory(disk).Done? <==> !Blocked(disk)
  {
  }

  lemma BlockedStep(disk: Root, deploy: Deploy, grace: real, cap: int)
    requires Blocked(disk)
    ensures Decide(deploy.source, disk, deploy.now, grace, cap).Refused?
  {
    ReadableIffUnblocked(disk);
  }

  // --------------------------------------------------- deployments go through

  /** Hashed names are addresses of contents: every file under one has the bytes `content` has for it. */
  ghost predicate Addressed(assets: map<Name, seq<Byte>>, content: map<Name, seq<Byte>>) {
    forall name | name in assets && HashedName(name) :: name in content && assets[name] == content[name]
  }

  lemma CopiedAddressed(source: Root, assets: map<Name, seq<Byte>>, keep: set<Name>, content: map<Name, seq<Byte>>)
    requires Addressed(source.assets, content) && Addressed(assets, content)
    ensures Addressed(Copied(source, assets, keep), content)
  {
  }

  lemma SubmapAddressed(a: map<Name, seq<Byte>>, b: map<Name, seq<Byte>>, content: map<Name, seq<Byte>>)
    requires Addressed(b, content) && forall name | name in a && HashedName(name) :: name in b && a[name] == b[name]
    ensures Addressed(a, content)
  {
  }

  lemma StepAddressed(before: Root, deploy: Deploy, grace: real, cap: int, after: Root, content: map<Name, seq<Byte>>)
    requires Step(before, deploy, grace, cap, after)
    requires Addressed(deploy.source.assets, content) && Addressed(before.assets, content)
    ensures Addressed(after.assets, content)
  {
    var decision := Decide(deploy.source, before, deploy.now, grace, cap);
    if decision.Done? {
      var copied := Copied(deploy.source, before.assets, Keep(decision.value));
      CopiedAddressed(deploy.source, before.assets, Keep(decision.value), content);
      if !deploy.completed {
        var disk :| DuringRun(deploy.source, before, decision.value, disk) && Leftover(disk, after);
        LeftoverWithin(deploy.source, before, decision.value, disk, after);
      }
      SubmapAddressed(after.assets, copied, content);
    }
  }

  lemma LeftoverWithin(source: Root, before: Root, plan: Stock, disk: Root, after: Root)
    requires DuringRun(source, before, plan, disk) && Leftover(disk, after)
    ensures var copied := Copied(source, before.assets, Keep(plan));
      forall name | name in after.assets && HashedName(name) :: name in copied && after.assets[name] == copied[name]
  {
  }

  /** The same of the first `n` images. */
  ghost predicate ImagesAddressed(deploys: seq<Deploy>, n: nat, content: map<Name, seq<Byte>>) {
    forall k | 0 <= k < n && k < |deploys| :: Addressed(deploys[k].source.assets, content)
  }

  lemma OneImageLess(deploys: seq<Deploy>, n: nat, content: map<Name, seq<Byte>>)
    requires 0 < n <= |deploys| && ImagesAddressed(deploys, n, content)
    ensures ImagesAddressed(deploys, n - 1, content) && Addressed(deploys[n - 1].source.assets, content)
  {
  }

  lemma {:induction false} HistoryAddressed(states: seq<Root>, deploys: seq<Deploy>, grace: real, cap: int, i: nat, content: map<Name, seq<Byte>>)
    requires History(states, deploys, grace, cap) && i < |states| && ImagesAddressed(deploys, i, content)
    ensures Addressed(states[i].assets, content)
  {
    if i == 0 {
      StartAddressed(states, deploys, grace, cap, content);
    } else {
      FewerImages(deploys, i, content);
      HistoryAddressed(states, deploys, grace, cap, i - 1, content);
      NextAddressed(states, deploys, grace, cap, i - 1, content);
    }
  }

  lemma FewerImages(deploys: seq<Deploy>, n: nat, content: map<Name, seq<Byte>>)
    requires n > 0 && ImagesAddressed(deploys, n, content)
    ensures ImagesAddressed(deploys, n - 1, content)
  {
  }

  lemma StartAddressed(states: seq<Root>, deploys: seq<Deploy>, grace: real, cap: int, content: map<Name, seq<Byte>>)
    requires History(states, deploys, grace, cap)
    ensures Addressed(states[0].assets, content)
  {
    assert states[0] == EMPTY;
  }

  lemma NextAddressed(states: seq<Root>, deploys: seq<Deploy>, grace: real, cap: int, k: nat, content: map<Name, seq<Byte>>)
    requires History(states, deploys, grace, cap) && k + 1 < |states|
    requires ImagesAddressed(deploys, k + 1, content) && Addressed(states[k].assets, content)
    ensures Addressed(states[k + 1].assets, content)
  {
    OneImageLess(deploys, k + 1, content);
    StepAddressed(states[k], deploys[k], grace, cap, states[k + 1], content);
  }

  lemma AddressedAgree(source: Root, destination: Root, now: real, grace: real, cap: nat, content: map<Name, seq<Byte>>)
    requires Inventory(source).Done? && Inventory(destination).Done?
    requires Addressed(source.assets, content) && Addressed(destination.assets, content)
    ensures BytesAgree(source, destination, now, grace, cap)
  {
    InventoryFacts(source, Inventory(source).value);
    forall name | name in Schedule(Inventory(source).value, Inventory(destination).value, now, grace, cap) ensures HashedName(name) {
      KeptIff(Inventory(source).value, Inventory(destination).value, now, grace, cap, name);
      InventoryFacts(destination, Inventory(destination).value);
    }
  }

  /** Where hashed names address contents, a deployment of a readable image goes through anywhere in any
      history, unless the destination is blocked. */
  lemma DeploymentGoesThrough(states: seq<Root>, deploys: seq<Deploy>, grace: real, cap: int, i: nat, content: map<Name, seq<Byte>>)
    requires History(states, deploys, grace, cap) && i < |deploys| && grace > 0.0 && cap >= 1
    requires ImagesAddressed(deploys, i + 1, content)
    ensures Decide(deploys[i].source, states[i], deploys[i].now, grace, cap).Done? <==>
            Inventory(deploys[i].source).Done? && !Blocked(states[i])
  {
    var source, destination := deploys[i].source, states[i];
    EveryStateSound(states, deploys, grace, cap, i);
    if destination.manifest.Absent? { ReadableIffUnblocked(destination); }
    DecideIff(source, destination, deploys[i].now, grace, cap);
    if Inventory(source).Done? && Inventory(destination).Done? {
      OneImageLess(deploys, i + 1, content);
      HistoryAddressed(states, deploys, grace, cap, i, content);
      AddressedAgree(source, destination, deploys[i].now, grace, cap, content);
    }
  }

  // ----------------------------------------------- building an image history

  /** The preserving form of the command line: a fresh destination, the predecessor's history
      copied in under a raised cap, then the new release on top. */
  function AssembleImage(source: Root, previous: Root, now: real, grace: real, cap: int): Outcome<Root> {
    if grace <= 0.0 then Refused(BadGrace)
    else if cap < 1 then Refused(BadCap)
    else if !source.manifest.Absent? then Refused(BadRequest)
    else
      var stock := Inventory(previous);
      if stock.Refused? then Refused(stock.why)
      else
        var raised := RaisedCap(stock.value, now, cap);
        var first := Retain(previous, EMPTY, now, grace, raised);
        if first.Refused? then first else Retain(source, first.value, now, grace, raised)
  }

  function Unexpired(stock: Stock, now: real): set<Name> {
    set name | name in stock.expires.Keys && stock.expires[name] > now
  }

  /** The distinct deadlines that have not passed. */
  function Groups(stock: Stock, now: real): set<real> {
    set name | name in stock.expires.Keys && stock.expires[name] > now :: stock.expires[name]
  }

  function RaisedCap(stock: Stock, now: real, cap: int): int {
    var groups := |Groups(stock, now)| + 1;
    if groups > cap then groups else cap
  }

  /** When no more than `cap` distinct deadlines are live, the cap drops nothing. */
  lemma CapDropsNothing(source: Stock, previous: Stock, now: real, grace: real, cap: nat)
    requires |Candidates(source, previous, now, grace).Values| <= cap
    ensures Schedule(source, previous, now, grace, cap) == Candidates(source, previous, now, grace)
  {
    NewestSize(Candidates(source, previous, now, grace).Values, cap);
  }

  /** The deadlines live in the predecessor, its own active names aside, are among its unexpired groups. */
  lemma LiveGroups(stock: Stock, now: real)
    ensures |Live(stock.expires, stock.active, now).Values| <= |Groups(stock, now)|
  {
    SubsetSize(Live(stock.expires, stock.active, now).Values, Groups(stock, now));
  }

  lemma FreshCandidates(stock: Stock, now: real, grace: real)
    ensures Candidates(stock, Stock({}, map[]), now, grace) == Live(stock.expires, stock.active, now)
  {
    var none := Stock({}, map[]);
    assert Merged(none.expires, stock.expires) == stock.expires;
    assert Stamped(stock.expires, none.active - stock.active, now + grace) == stock.expires;
  }

  /** After the first run: the predecessor's active names and its unexpired names, none dropped. */
  lemma FirstRunPlan(stock: Stock, now: real, grace: real, cap: int)
    requires cap >= 1
    ensures var raised := RaisedCap(stock, now, cap);
            var none := Stock({}, map[]);
            && raised >= 1
            && Schedule(stock, none, now, grace, raised) == Live(stock.expires, stock.active, now)
            && |Live(stock.expires, stock.active, now).Values| < raised
  {
    var live := Live(stock.expires, stock.active, now);
    var none := Stock({}, map[]);
    LiveGroups(stock, now);
    FreshCandidates(stock, now, grace);
    CapDropsNothing(stock, none, now, grace, RaisedCap(stock, now, cap));
  }

  /** The second run retires one release, adding at most one deadline, so again none is dropped. */
  lemma SecondRunPlan(active: set<Name>, first: Stock, now: real, grace: real, cap: nat)
    requires |first.expires.Values| < cap
    ensures Schedule(Stock(active, map[]), first, now, grace, cap) == Candidates(Stock(active, map[]), first, now, grace)
  {
    var values := Candidates(Stock(active, map[]), first, now, grace).Values;
    SubsetSize(values, first.expires.Values + {now + grace});
    CapDropsNothing(Stock(active, map[]), first, now, grace, cap);
  }

  /** The names of the predecessor that visitors may still request. */
  function Preserved(stock: Stock, now: real): set<Name> {
    stock.active + Unexpired(stock, now)
  }

  function FirstPlan(stock: Stock, now: real): Stock {
    Stock(stock.active, Live(stock.expires, stock.active, now))
  }

  lemma EmptyStock(root: Root)
    requires root == EMPTY
    ensures Inventory(root) == Done(Stock({}, map[]))
  {
    var expires := ListedExpires(root);
    assert ListedActive(root) == {} && expires == map[];
    assert Inventory(root).Done? && Inventory(root).value.expires == map[];
  }

  lemma FirstRun(previous: Root, now: real, grace: real, cap: int, stock: Stock)
    requires Inventory(previous) == Done(stock) && grace > 0.0 && cap >= 1
    ensures Decide(previous, EMPTY, now, grace, RaisedCap(stock, now, cap)) == Done(FirstPlan(stock, now))
  {
    FirstRunPlan(stock, now, grace, cap);
    EmptyStock(EMPTY);
  }

  lemma FirstPlanKeeps(stock: Stock, now: real)
    ensures Keep(FirstPlan(stock, now)) == Preserved(stock, now)
  {
  }

  /** The destination between the two runs: the preserved files with the predecessor's bytes. */
  lemma BetweenRuns(previous: Root, now: real, grace: real, cap: int, stock: Stock)
    requires Inventory(previous) == Done(stock) && grace > 0.0 && cap >= 1
    ensures var between := Finished(previous, EMPTY, FirstPlan(stock, now));
      && Retain(previous, EMPTY, now, grace, RaisedCap(stock, now, cap)) == Done(between)
      && Inventory(between) == Done(FirstPlan(stock, now))
      && between.assets.Keys == Preserved(stock, now)
      && SameFiles(Preserved(stock, now), between.assets, previous.assets)
  {
    FirstRun(previous, now, grace, cap, stock);
    FirstPlanKeeps(stock, now);
    FinishedContents(previous, EMPTY, now, grace, RaisedCap(stock, now, cap), FirstPlan(stock, now));
    InventoryFacts(previous, stock);
  }

  lemma AbsentStock(source: Root)
    requires source.manifest.Absent? && Inventory(source).Done?
    ensures Inventory(source) == Done(Stock(source.assets.Keys, map[]))
  {
    assert Inventory(source).value.expires == map[];
  }

  /** The second run's plan keeps every preserved name. */
  lemma SecondRun(source: Root, previous: Root, now: real, grace: real, cap: int, stock: Stock)
    requires Inventory(previous) == Done(stock) && grace > 0.0 && cap >= 1
    requires source.manifest.Absent? && Inventory(source).Done?
    ensures var between := Finished(previous, EMPTY, FirstPlan(stock, now));
      var expires := Candidates(Stock(source.assets.Keys, map[]), FirstPlan(stock, now), now, grace);
      Decide(source, between, now, grace, RaisedCap(stock, now, cap)) ==
      if Collides(source, between.assets, source.assets.Keys + expires.Keys) then Refused(Collision)
      else Done(Stock(source.assets.Keys, expires))
  {
    BetweenRuns(previous, now, grace, cap, stock);
    AbsentStock(source);
    FirstRunPlan(stock, now, grace, cap);
    SecondRunPlan(source.assets.Keys, FirstPlan(stock, now), now, grace, RaisedCap(stock, now, cap));
  }

  lemma CollisionIff(source: Root, previous: Root, between: Root, preserved: set<Name>, expires: set<Name>)
    requires between.assets.Keys == preserved && SameFiles(preserved, between.assets, previous.assets)
    ensures Collides(source, between.assets, source.assets.Keys + expires) <==> Collides(source, previous.assets, preserved)
  {
    if Collides(source, previous.assets, preserved) {
      var name :| name in preserved && name in source.assets && name in previous.assets && source.assets[name] != previous.assets[name];
      assert name in source.assets.Keys + expires;
    }
  }

  /** Assembly is refused only for bad arguments, an unreadable input, or a new file whose
      bytes differ from a preserved file of the same name. */
  lemma AssembleIff(source: Root, previous: Root, now: real, grace: real, cap: int)
    ensures AssembleImage(source, previous, now, grace, cap).Done? <==>
      && grace > 0.0 && cap >= 1 && source.manifest.Absent?
      && Inventory(previous).Done? && Inventory(source).Done?
      && !Collides(source, previous.assets, Preserved(Inventory(previous).value, now))
  {
    if grace > 0.0 && cap >= 1 && source.manifest.Absent? && Inventory(previous).Done? {
      var stock := Inventory(previous).value;
      BetweenRuns(previous, now, grace, cap, stock);
      if Inventory(source).Done? {
        SecondRun(source, previous, now, grace, cap, stock);
        CollisionIff(source, previous, Finished(previous, EMPTY, FirstPlan(stock, now)), Preserved(stock, now),
                     Candidates(Stock(source.assets.Keys, map[]), FirstPlan(stock, now), now, grace).Keys);
      }
    }
  }

  /** The deadline each preserved name has in the new image. */
  function InheritedDeadline(stock: Stock, now: real, grace: real, name: Name): real
    requires name in Preserved(stock, now)
  {
    if name in stock.active then now + grace else stock.expires[name]
  }

  lemma SecondDeadlines(active: set<Name>, stock: Stock, now: real, grace: real)
    requires grace > 0.0
    ensures Candidates(Stock(active, map[]), FirstPlan(stock, now), now, grace) ==
            map name | name in Preserved(stock, now) && name !in active :: InheritedDeadline(stock, now, grace, name)
  {
  }

  function ImageExpires(source: Root, stock: Stock, now: real, grace: real): map<Name, real> {
    map name | name in Preserved(stock, now) && name !in source.assets.Keys :: InheritedDeadline(stock, now, grace, name)
  }

  lemma SecondDecision(source: Root, previous: Root, now: real, grace: real, cap: int, stock: Stock)
    requires AssembleImage(source, previous, now, grace, cap).Done? && Inventory(previous) == Done(stock)
    ensures Decide(source, Finished(previous, EMPTY, FirstPlan(stock, now)), now, grace, RaisedCap(stock, now, cap)) ==
            Done(Stock(source.assets.Keys, ImageExpires(source, stock, now, grace)))
  {
    AssembleIff(source, previous, now, grace, cap);
    BetweenRuns(previous, now, grace, cap, stock);
    SecondRun(source, previous, now, grace, cap, stock);
    SecondDeadlines(source.assets.Keys, stock, now, grace);
  }

  lemma ImageKeeps(source: Root, stock: Stock, now: real, grace: real)
    ensures Keep(Stock(source.assets.Keys, ImageExpires(source, stock, now, grace))) == source.assets.Keys + Preserved(stock, now)
  {
  }

  /** An assembled image holds exactly the new files and the preserved ones, byte for byte,
      and every preserved name that the release does not reuse keeps its inherited deadline,
      however many releases that makes. */
  lemma AssembleKeepsEverything(source: Root, previous: Root, now: real, grace: real, cap: int, stock: Stock, after: Root)
    requires Inventory(previous) == Done(stock)
    requires AssembleImage(source, previous, now, grace, cap) == Done(after)
    ensures Inventory(after) == Done(Stock(source.assets.Keys, ImageExpires(source, stock, now, grace)))
    ensures after.assets.Keys == source.assets.Keys + Preserved(stock, now)
    ensures SameFiles(source.assets.Keys, after.assets, source.assets)
    ensures SameFiles(Preserved(stock, now), after.assets, previous.assets)
  {
    var between := Finished(previous, EMPTY, FirstPlan(stock, now));
    var plan := Stock(source.assets.Keys, ImageExpires(source, stock, now, grace));
    BetweenRuns(previous, now, grace, cap, stock);
    SecondDecision(source, previous, now, grace, cap, stock);
    FinishedContents(source, between, now, grace, RaisedCap(stock, now, cap), plan);
    ImageKeeps(source, stock, now, grace);
  }
}
