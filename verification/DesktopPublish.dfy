/** Publishing desktop releases to a bucket (companion/scripts/release_desktop.py): the order of
    uploads, publishes cut off after any of them, and the listing that guards a version. */
module DesktopPublish {

  import opened Options
  import opened Text

  datatype File = Archive | Signature | DiskImage | Manifest

  /** `v{version}/…` or `{channel}/latest.json`. */
  datatype Path = Versioned(version: string, file: File) | Channel(name: string)

  /** A manifest names the archive of its version and carries that archive's signature. */
  datatype Content = Blob(bytes: string) | Latest(version: string, signature: string)

  datatype Built = Built(archive: string, signature: string, diskImage: string)

  datatype Upload = Upload(path: Path, content: Content)

  type Bucket = map<Path, Content>

  /** What `gcloud storage ls` answers: a failing exit code, or success with or without names. */
  datatype Listing = Fails | Shows(names: bool)

  /** One publish: `uploads` is how many copies succeed before it stops. */
  datatype Publish = Publish(built: Built, version: string, channel: string, projectMatches: bool, listing: Listing, uploads: nat)

  /** The planned uploads: the channel's manifest last. */
  function Plan(p: Publish): (plan: seq<Upload>)
    ensures |plan| == 5
  {
    var latest := Latest(p.version, Strip(p.built.signature));
    [Upload(Versioned(p.version, Archive), Blob(p.built.archive)),
     Upload(Versioned(p.version, Signature), Blob(p.built.signature)),
     Upload(Versioned(p.version, DiskImage), Blob(p.built.diskImage)),
     Upload(Versioned(p.version, Manifest), latest),
     Upload(Channel(p.channel), latest)]
  }

  /** An empty signature, another project or an already listed version stops before any upload. */
  predicate Refused(p: Publish) {
    Strip(p.built.signature) == "" || !p.projectMatches || p.listing == Shows(true)
  }

  function Put(bucket: Bucket, uploads: seq<Upload>): Bucket {
    if uploads == [] then bucket
    else
      var n := |uploads| - 1;
      Put(bucket, uploads[..n])[uploads[n].path := uploads[n].content]
  }

  /** The copies a publish makes. */
  function Made(p: Publish): seq<Upload> {
    if Refused(p) then [] else Plan(p)[..if p.uploads < 5 then p.uploads else 5]
  }

  function After(bucket: Bucket, p: Publish): Bucket { Put(bucket, Made(p)) }

  class Store {
    var objects: Bucket

    constructor ()
      ensures objects == map[]
    {
      objects := map[];
    }

    method Run(p: Publish) returns (completed: bool)
      modifies this
      ensures objects == After(old(objects), p)
      ensures completed <==> Completes(p)
    {
      if Refused(p) { return false; }
      var plan := Plan(p);
      var i := 0;
      while i < |plan| && i < p.uploads
        invariant 0 <= i <= |plan| && i <= p.uploads
        invariant objects == Put(old(objects), plan[..i])
      {
        assert plan[..i + 1][..i] == plan[..i];
        objects := objects[plan[i].path := plan[i].content];
        i := i + 1;
      }
      return i == |plan|;
    }
  }

  // ------------------------------------------------------------ which bytes end up where

  /** The archive's signature is there, the project is the expected one and no earlier object was shown. */
  predicate Accepted(p: Publish) {
    Strip(p.built.signature) != "" && p.projectMatches && !(p.listing.Shows? && p.listing.names)
  }

  /** What the first `n` copies put under a path: the build's archive, its signature, its disk image, and
      a manifest under the version and then under the channel. */
  function Copied(p: Publish, n: nat, path: Path): Option<Content> {
    match path
    case Channel(name) => if name == p.channel && n >= 5 then Some(Latest(p.version, Strip(p.built.signature))) else None
    case Versioned(version, file) =>
      if version != p.version then None
      else
        match file
        case Archive => if n >= 1 then Some(Blob(p.built.archive)) else None
        case Signature => if n >= 2 then Some(Blob(p.built.signature)) else None
        case DiskImage => if n >= 3 then Some(Blob(p.built.diskImage)) else None
        case Manifest => if n >= 4 then Some(Latest(p.version, Strip(p.built.signature))) else None
  }

  ghost predicate PutOver(bucket: Bucket, found: Option<Content>, path: Path, after: Bucket) {
    if found.Some? then path in after && after[path] == found.value
    else (path in after <==> path in bucket) && (path in bucket ==> after[path] == bucket[path])
  }

  lemma CopiedStep(p: Publish, n: nat, path: Path)
    requires 0 < n <= 5
    ensures Copied(p, n, path) == if path == Plan(p)[n - 1].path then Some(Plan(p)[n - 1].content) else Copied(p, n - 1, path)
  {
  }

  lemma {:induction false} PlanPuts(bucket: Bucket, p: Publish, n: nat, path: Path)
    requires n <= 5
    ensures PutOver(bucket, Copied(p, n, path), path, Put(bucket, Plan(p)[..n]))
  {
    if n > 0 {
      PlanPuts(bucket, p, n - 1, path);
      CopiedStep(p, n, path);
      assert Plan(p)[..n][..n - 1] == Plan(p)[..n - 1];
    }
  }

  /** A publish, cut off anywhere, leaves exactly this under each path; a refused one leaves the bucket. */
  lemma AfterMeans(bucket: Bucket, p: Publish, path: Path)
    ensures PutOver(bucket, if Accepted(p) then Copied(p, p.uploads, path) else None, path, After(bucket, p))
  {
    if Accepted(p) {
      PlanPuts(bucket, p, if p.uploads < 5 then p.uploads else 5, path);
    }
  }

  // ------------------------------------------------------------------- invariants

  ghost predicate Holds(bucket: Bucket, version: string, file: File) { Versioned(version, file) in bucket }

  /** Every manifest names an archive that is there. */
  ghost predicate ArchivesPresent(bucket: Bucket) {
    forall path | path in bucket && bucket[path].Latest? :: Holds(bucket, bucket[path].version, Archive)
  }

  lemma {:induction false} PutFacts(bucket: Bucket, uploads: seq<Upload>)
    ensures bucket.Keys <= Put(bucket, uploads).Keys
    ensures forall path | path in Put(bucket, uploads) ::
      || (path in bucket && Put(bucket, uploads)[path] == bucket[path])
      || exists i | 0 <= i < |uploads| :: uploads[i] == Upload(path, Put(bucket, uploads)[path])
    ensures forall i | 0 <= i < |uploads| :: uploads[i].path in Put(bucket, uploads)
  {
    if uploads != [] {
      var n := |uploads| - 1;
      PutFacts(bucket, uploads[..n]);
    }
  }

  lemma MadeFacts(p: Publish, i: nat)
    requires i < |Made(p)|
    ensures !Refused(p) && i < p.uploads && i < 5 && Made(p)[i] == Plan(p)[i]
    ensures forall j | 0 <= j <= i :: j < |Made(p)| && Made(p)[j] == Plan(p)[j]
  {
  }

  /** One publish, cut off anywhere, keeps every manifest's archive present. */
  lemma PublishKeepsArchives(bucket: Bucket, p: Publish)
    requires ArchivesPresent(bucket)
    ensures ArchivesPresent(After(bucket, p))
  {
    var after := After(bucket, p);
    PutFacts(bucket, Made(p));
    forall path | path in after && after[path].Latest? ensures Holds(after, after[path].version, Archive) {
      if !(path in bucket && after[path] == bucket[path]) {
        var i :| 0 <= i < |Made(p)| && Made(p)[i] == Upload(path, after[path]);
        MadeFacts(p, i);
        assert Made(p)[0].path == Versioned(p.version, Archive);
      }
    }
  }

  /** A history of publishes by one publisher, from an empty bucket. */
  ghost predicate History(states: seq<Bucket>, publishes: seq<Publish>) {
    && |states| == |publishes| + 1 && states[0] == map[]
    && forall i | 0 <= i < |publishes| :: states[i + 1] == After(states[i], publishes[i])
  }

  /** No client ever sees a manifest that points at a missing archive: whatever is published, refused
      or cut off after any upload, and whatever the listings answered. */
  lemma {:induction false} ManifestsNameArchives(states: seq<Bucket>, publishes: seq<Publish>, i: nat)
    requires History(states, publishes) && i < |states|
    ensures ArchivesPresent(states[i]) && ArchiveFirst(states[i])
  {
    if i > 0 {
      ManifestsNameArchives(states, publishes, i - 1);
      PublishKeepsArchives(states[i - 1], publishes[i - 1]);
      PublishKeepsArchiveFirst(states[i - 1], publishes[i - 1]);
    }
  }

  // ----------------------------------------------------------- versions are final

  ghost predicate Occupied(bucket: Bucket, version: string) {
    exists file :: Holds(bucket, version, file)
  }

  /** The listing shows names whenever there are some. */
  ghost predicate Truthful(bucket: Bucket, p: Publish) {
    Occupied(bucket, p.version) ==> p.listing == Shows(true)
  }

  /** A version that has any object has its archive, which is uploaded first. */
  ghost predicate ArchiveFirst(bucket: Bucket) {
    forall version, file | Holds(bucket, version, file) :: Holds(bucket, version, Archive)
  }

  lemma PublishKeepsArchiveFirst(bucket: Bucket, p: Publish)
    requires ArchiveFirst(bucket)
    ensures ArchiveFirst(After(bucket, p))
  {
    var after := After(bucket, p);
    PutFacts(bucket, Made(p));
    forall version, file | Holds(after, version, file) ensures Holds(after, version, Archive) {
      if !Holds(bucket, version, file) {
        var path := Versioned(version, file);
        var i :| 0 <= i < |Made(p)| && Made(p)[i] == Upload(path, after[path]);
        MadeFacts(p, i);
        assert Made(p)[0].path == Versioned(p.version, Archive);
      }
    }
  }

  ghost predicate Overwrites(bucket: Bucket, p: Publish) {
    exists i | 0 <= i < |Made(p)| :: Made(p)[i].path.Versioned? && Made(p)[i].path in bucket
  }

  /** A publish writes over a published object exactly when the version has objects, the listing
      did not show them, nothing else refuses it and at least one upload is made. */
  lemma OverwriteIff(bucket: Bucket, p: Publish)
    requires ArchiveFirst(bucket)
    ensures Overwrites(bucket, p) <==> Occupied(bucket, p.version) && Accepted(p) && p.uploads > 0
    ensures Truthful(bucket, p) ==> !Overwrites(bucket, p)
  {
    if Overwrites(bucket, p) {
      var i :| 0 <= i < |Made(p)| && Made(p)[i].path.Versioned? && Made(p)[i].path in bucket;
      MadeFacts(p, i);
      assert Holds(bucket, p.version, Made(p)[i].path.file);
    }
    if Occupied(bucket, p.version) && !Refused(p) && p.uploads > 0 {
      MadeFacts(p, 0);
      assert Made(p)[0].path == Versioned(p.version, Archive);
    }
  }

  /** The failing family: a listing that fails although the version is there. */
  lemma FailedListingOverwrites(p: Publish)
    requires Strip(p.built.signature) != "" && p.projectMatches && p.listing == Fails && p.uploads > 0
    ensures Overwrites(map[Versioned(p.version, Archive) := Blob("earlier")], p)
  {
    var bucket: Bucket := map[Versioned(p.version, Archive) := Blob("earlier")];
    assert Holds(bucket, p.version, Archive);
    OverwriteIff(bucket, p);
  }

  lemma PublishKeepsObjects(bucket: Bucket, p: Publish, path: Path)
    requires Truthful(bucket, p) && path.Versioned? && path in bucket
    ensures path in After(bucket, p) && After(bucket, p)[path] == bucket[path]
  {
    PutFacts(bucket, Made(p));
    assert Holds(bucket, path.version, path.file);
    if After(bucket, p)[path] != bucket[path] {
      var i :| 0 <= i < |Made(p)| && Made(p)[i] == Upload(path, After(bucket, p)[path]);
      MadeFacts(p, i);
      assert false;
    }
  }

  /** While listings are truthful, a published object is never written again. */
  lemma {:induction false} PublishedIsFinal(states: seq<Bucket>, publishes: seq<Publish>, i: nat, j: nat, path: Path)
    requires History(states, publishes) && i <= j < |states|
    requires forall k | i <= k < j :: Truthful(states[k], publishes[k])
    requires path.Versioned? && path in states[i]
    ensures path in states[j] && states[j][path] == states[i][path]
    decreases j
  {
    if i < j {
      PublishedIsFinal(states, publishes, i, j - 1, path);
      PublishKeepsObjects(states[j - 1], publishes[j - 1], path);
    }
  }

  /** The manifest is this publish's, and the release it names holds the bytes of its build. */
  ghost predicate Delivered(bucket: Bucket, latest: Content, p: Publish) {
    && latest == Latest(p.version, Strip(p.built.signature)) && Strip(p.built.signature) != ""
    && Has(bucket, Versioned(p.version, Archive), Blob(p.built.archive))
    && Has(bucket, Versioned(p.version, Signature), Blob(p.built.signature))
    && Has(bucket, Versioned(p.version, DiskImage), Blob(p.built.diskImage))
    && Has(bucket, Versioned(p.version, Manifest), latest)
  }

  ghost predicate Has(bucket: Bucket, path: Path, content: Content) { path in bucket && bucket[path] == content }

  predicate Completes(p: Publish) { Accepted(p) && p.uploads >= 5 }

  /** The k-th publish is the last that completed on this channel, and the channel delivers it. */
  ghost predicate Serves(bucket: Bucket, publishes: seq<Publish>, n: nat, name: string, k: nat) {
    && k < n <= |publishes| && publishes[k].channel == name && Completes(publishes[k])
    && (forall j | k < j < n && publishes[j].channel == name :: !Completes(publishes[j]))
    && Channel(name) in bucket && Delivered(bucket, bucket[Channel(name)], publishes[k])
  }

  lemma StaysDelivered(bucket: Bucket, p: Publish, latest: Content, earlier: Publish)
    requires Truthful(bucket, p) && Delivered(bucket, latest, earlier)
    ensures Delivered(After(bucket, p), latest, earlier)
  {
    PublishKeepsObjects(bucket, p, Versioned(earlier.version, Archive));
    PublishKeepsObjects(bucket, p, Versioned(earlier.version, Signature));
    PublishKeepsObjects(bucket, p, Versioned(earlier.version, DiskImage));
    PublishKeepsObjects(bucket, p, Versioned(earlier.version, Manifest));
  }

  /** A publish that makes its last upload has delivered everything the manifest names. */
  lemma LastUploadDelivers(bucket: Bucket, p: Publish)
    requires Completes(p)
    ensures Channel(p.channel) in After(bucket, p) && Delivered(After(bucket, p), After(bucket, p)[Channel(p.channel)], p)
  {
    AfterMeans(bucket, p, Channel(p.channel));
    AfterMeans(bucket, p, Versioned(p.version, Archive));
    AfterMeans(bucket, p, Versioned(p.version, Signature));
    AfterMeans(bucket, p, Versioned(p.version, DiskImage));
    AfterMeans(bucket, p, Versioned(p.version, Manifest));
  }

  /** While listings are truthful: a channel has a manifest once a publish completed on it, and it always
      delivers the last one that did, byte for byte, however many were refused or cut off since. */
  lemma {:induction false} ChannelsAlwaysDelivered(states: seq<Bucket>, publishes: seq<Publish>, i: nat, name: string)
    requires History(states, publishes) && i < |states|
    requires forall k | 0 <= k < i :: Truthful(states[k], publishes[k])
    ensures Channel(name) in states[i] <==> exists k | 0 <= k < i :: publishes[k].channel == name && Completes(publishes[k])
    ensures Channel(name) in states[i] ==> exists k: nat :: Serves(states[i], publishes, i, name, k)
  {
    if i > 0 {
      var before, p := states[i - 1], publishes[i - 1];
      ChannelsAlwaysDelivered(states, publishes, i - 1, name);
      ChannelStep(before, p, name);
      if p.channel == name && Completes(p) {
        LastServes(before, publishes, i, name);
      } else if Channel(name) in before {
        var k: nat :| Serves(before, publishes, i - 1, name, k);
        StillServes(before, publishes, i, name, k);
      }
    }
  }

  lemma ChannelStep(before: Bucket, p: Publish, name: string)
    ensures Channel(name) in After(before, p) <==> Channel(name) in before || (p.channel == name && Completes(p))
    ensures !(p.channel == name && Completes(p)) && Channel(name) in before ==>
      After(before, p)[Channel(name)] == before[Channel(name)]
  {
    AfterMeans(before, p, Channel(name));
  }

  lemma LastServes(before: Bucket, publishes: seq<Publish>, n: nat, name: string)
    requires 0 < n <= |publishes| && publishes[n - 1].channel == name && Completes(publishes[n - 1])
    ensures Serves(After(before, publishes[n - 1]), publishes, n, name, n - 1)
  {
    LastUploadDelivers(before, publishes[n - 1]);
  }

  lemma StillServes(before: Bucket, publishes: seq<Publish>, n: nat, name: string, k: nat)
    requires 0 < n <= |publishes| && Serves(before, publishes, n - 1, name, k) && Truthful(before, publishes[n - 1])
    requires !(publishes[n - 1].channel == name && Completes(publishes[n - 1]))
    ensures Serves(After(before, publishes[n - 1]), publishes, n, name, k)
  {
    ChannelStep(before, publishes[n - 1], name);
    StaysDelivered(before, publishes[n - 1], before[Channel(name)], publishes[k]);
  }
}
