/** The runtime manifest: validating the hand-off and its canonical form, the basis of the cutover fingerprint
    (migrations/runtime-manifest.ts:78-104, 161-297). */
module RuntimeManifest {
  import opened Common
  import RuntimeApply

  datatype Artifact = Artifact(action: string, target: string, stagedPath: Option<string>, sha256: Option<string>,
                               mode: Option<int>, uid: Option<int>, gid: Option<int>, postCommitOnly: bool)
  datatype Probe = Probe(url: string, expectedStatus: seq<int>)
  datatype Manifest = Manifest(requiresCutover: bool, artifacts: seq<Artifact>, services: seq<string>, sockets: seq<string>,
                               probes: seq<Probe>, validations: seq<string>)

  // ------------------------------------------------------------------ canonical form

  /** The collation of localeCompare and the code-unit order of a plain sort. */
  datatype Orders = Orders(locale: (string, string) -> bool, units: (string, string) -> bool)

  ghost predicate Total(o: Orders) { StrictTotalOrder(o.locale) && StrictTotalOrder(o.units) }

  /** The staging path is only a transport location. */
  function Bound(a: Artifact): Artifact { a.(stagedPath := None) }

  function Target(a: Artifact): string { a.target }

  function ByTarget(o: Orders): (Artifact, Artifact) -> bool { (l: Artifact, r: Artifact) => o.locale(l.target, r.target) }
  function ByUrl(o: Orders): (Probe, Probe) -> bool { (l: Probe, r: Probe) => o.locale(l.url, r.url) }
  function Ascending(): (int, int) -> bool { (l: int, r: int) => l < r }
  function SortedProbe(): Probe -> Probe { (p: Probe) => p.(expectedStatus := Sort(p.expectedStatus, Ascending())) }

  function CanonicalProbes(o: Orders, probes: seq<Probe>): seq<Probe> { Sort(Map(probes, SortedProbe()), ByUrl(o)) }

  /** canonicalManifest, up to its final JSON.stringify. */
  function Canonical(o: Orders, m: Manifest): Manifest {
    Manifest(m.requiresCutover, Sort(Map(m.artifacts, Bound), ByTarget(o)), Sort(m.services, o.units), Sort(m.sockets, o.units),
             CanonicalProbes(o, m.probes), Sort(m.validations, o.units))
  }

  ghost predicate DistinctTargets(m: Manifest) { Distinct(Map(m.artifacts, Target)) }

  lemma {:induction false} TotalIsWeak<T(!new)>(less: (T, T) -> bool)
    requires StrictTotalOrder(less)
    ensures StrictWeakOrder(less)
  {
    forall x, y | less(x, y) ensures !less(y, x) {
      assert !less(x, x);
    }
    forall x, y, z | !less(y, x) && !less(z, y) ensures !less(z, x) {
      assert x == y || less(x, y);
      assert y == z || less(y, z);
    }
  }

  lemma {:induction false} StringsSortAlike(less: (string, string) -> bool, a: seq<string>, b: seq<string>)
    requires StrictTotalOrder(less)
    ensures Sort(a, less) == Sort(b, less) <==> multiset(a) == multiset(b)
  {
    TotalIsWeak(less);
    if multiset(a) == multiset(b) {
      SortCanonical(a, b, less);
    }
  }

  lemma {:induction false} TargetOrderIsWeak(o: Orders)
    requires Total(o)
    ensures StrictWeakOrder(ByTarget(o))
  {
    TotalIsWeak(o.locale);
    forall x, y | ByTarget(o)(x, y) ensures !ByTarget(o)(y, x) {
      assert !o.locale(y.target, x.target);
    }
    forall x, y, z | !ByTarget(o)(y, x) && !ByTarget(o)(z, y) ensures !ByTarget(o)(z, x) {
      assert !o.locale(y.target, x.target) && !o.locale(z.target, y.target);
      assert !o.locale(z.target, x.target);
    }
  }

  lemma {:induction false} ArtifactsSortAlike(o: Orders, a: seq<Artifact>, b: seq<Artifact>)
    requires Total(o) && Distinct(Map(a, Target))
    ensures Sort(a, ByTarget(o)) == Sort(b, ByTarget(o)) <==> multiset(a) == multiset(b)
  {
    TargetOrderIsWeak(o);
    if multiset(a) == multiset(b) {
      forall x, y | x in a && y in a && x != y ensures ByTarget(o)(x, y) || ByTarget(o)(y, x) {
        var i :| 0 <= i < |a| && a[i] == x;
        var j :| 0 <= j < |a| && a[j] == y;
        var targets := Map(a, Target);
        assert targets[i] == x.target && targets[j] == y.target;
      }
      SortCanonical(a, b, ByTarget(o));
    }
  }

  // ------------------------------------------------------------- probes, URL by URL

  function HasUrl(url: string): Probe -> bool { (p: Probe) => p.url == url }
  ghost function StatusSet(p: Probe): multiset<int> { multiset(p.expectedStatus) }

  /** The status sets asked of one URL, probe by probe. */
  ghost function StatusesAt(probes: seq<Probe>, url: string): seq<multiset<int>> {
    Map(Filter(probes, HasUrl(url)), StatusSet)
  }

  lemma {:induction false} StatusesSortAlike(a: seq<int>, b: seq<int>)
    ensures Sort(a, Ascending()) == Sort(b, Ascending()) <==> multiset(a) == multiset(b)
  {
    if multiset(a) == multiset(b) {
      SortCanonical(a, b, Ascending());
    }
  }

  /** Sorting by URL keeps the order of the probes that share one. */
  lemma {:induction false} SortIsStable(o: Orders, s: seq<Probe>, url: string)
    requires Total(o)
    ensures Filter(Sort(s, ByUrl(o)), HasUrl(url)) == Filter(s, HasUrl(url))
  {
    SortKeepsTies(s, ByUrl(o), HasUrl(url));
  }

  lemma {:induction false} UrlOrderIsWeak(o: Orders)
    requires Total(o)
    ensures StrictWeakOrder(ByUrl(o))
  {
    TotalIsWeak(o.locale);
    forall x, y | ByUrl(o)(x, y) ensures !ByUrl(o)(y, x) {
      assert !o.locale(y.url, x.url);
    }
    forall x, y, z | !ByUrl(o)(y, x) && !ByUrl(o)(z, y) ensures !ByUrl(o)(z, x) {
      assert !o.locale(y.url, x.url) && !o.locale(z.url, y.url);
      assert !o.locale(z.url, x.url);
    }
  }

  ghost predicate SameAtUrls(p: seq<Probe>, q: seq<Probe>) {
    forall url :: Filter(p, HasUrl(url)) == Filter(q, HasUrl(url))
  }

  /** The first URL of a sorted list comes first among its URLs. */
  lemma {:induction false} FirstUrl(o: Orders, p: seq<Probe>, q: seq<Probe>)
    requires Total(o) && Sorted(q, ByUrl(o)) && SameAtUrls(p, q) && p != []
    ensures q != [] && !o.locale(p[0].url, q[0].url)
  {
    assert Filter(p, HasUrl(p[0].url)) != [];
    FilterMembers(q, HasUrl(p[0].url));
    var y := Filter(q, HasUrl(p[0].url))[0];
    assert y in q;
    var j :| 0 <= j < |q| && q[j] == y;
    assert j > 0 ==> !ByUrl(o)(q[j], q[0]);
  }

  lemma {:induction false} SortedSameAtUrls(o: Orders, p: seq<Probe>, q: seq<Probe>)
    requires Total(o) && Sorted(p, ByUrl(o)) && Sorted(q, ByUrl(o)) && SameAtUrls(p, q)
    ensures p == q
  {
    if p == [] {
      if q != [] { FirstUrl(o, q, p); }
    } else {
      FirstUrl(o, p, q);
      FirstUrl(o, q, p);
      assert p[0].url == q[0].url;
      assert Filter(p, HasUrl(p[0].url))[0] == p[0] && Filter(q, HasUrl(p[0].url))[0] == q[0];
      forall url ensures Filter(p[1..], HasUrl(url)) == Filter(q[1..], HasUrl(url)) {
        assert Filter(p, HasUrl(url)) == Filter(q, HasUrl(url));
        FilterTails(p, q, HasUrl(url));
      }
      SortedSameAtUrls(o, p[1..], q[1..]);
    }
  }

  lemma {:induction false} SortedProbesAlike(s: seq<Probe>, t: seq<Probe>, url: string)
    requires (forall p <- s :: p.url == url) && forall p <- t :: p.url == url
    ensures Map(s, SortedProbe()) == Map(t, SortedProbe()) <==> Map(s, StatusSet) == Map(t, StatusSet)
  {
    if |s| == |t| {
      forall i | 0 <= i < |s|
        ensures Map(s, SortedProbe())[i] == Map(t, SortedProbe())[i] <==> Map(s, StatusSet)[i] == Map(t, StatusSet)[i]
      {
        assert s[i] in s && t[i] in t;
        StatusesSortAlike(s[i].expectedStatus, t[i].expectedStatus);
      }
    } else {
      assert |Map(s, SortedProbe())| == |s| && |Map(t, SortedProbe())| == |t|;
    }
  }

  lemma {:induction false} SortedAtUrl(o: Orders, probes: seq<Probe>, url: string)
    requires Total(o)
    ensures Filter(CanonicalProbes(o, probes), HasUrl(url)) == Map(Filter(probes, HasUrl(url)), SortedProbe())
  {
    SortIsStable(o, Map(probes, SortedProbe()), url);
    FilterMap(probes, SortedProbe(), HasUrl(url), HasUrl(url));
  }

  lemma {:induction false} ProbesAtUrl(a: seq<Probe>, b: seq<Probe>, url: string)
    ensures Map(Filter(a, HasUrl(url)), SortedProbe()) == Map(Filter(b, HasUrl(url)), SortedProbe())
       <==> StatusesAt(a, url) == StatusesAt(b, url)
  {
    FilterMembers(a, HasUrl(url));
    FilterMembers(b, HasUrl(url));
    SortedProbesAlike(Filter(a, HasUrl(url)), Filter(b, HasUrl(url)), url);
  }

  lemma {:induction false} CanonicalAtUrl(o: Orders, a: seq<Probe>, b: seq<Probe>, url: string)
    requires Total(o)
    ensures Filter(CanonicalProbes(o, a), HasUrl(url)) == Filter(CanonicalProbes(o, b), HasUrl(url))
       <==> StatusesAt(a, url) == StatusesAt(b, url)
  {
    SortedAtUrl(o, a, url);
    SortedAtUrl(o, b, url);
    ProbesAtUrl(a, b, url);
  }

  /** The canonical probe lists are equal exactly when each URL has the same status sets in the same order. */
  lemma {:induction false} ProbesSortAlike(o: Orders, a: seq<Probe>, b: seq<Probe>)
    requires Total(o)
    ensures CanonicalProbes(o, a) == CanonicalProbes(o, b) <==> forall url :: StatusesAt(a, url) == StatusesAt(b, url)
  {
    var p, q := CanonicalProbes(o, a), CanonicalProbes(o, b);
    forall url ensures Filter(p, HasUrl(url)) == Filter(q, HasUrl(url)) <==> StatusesAt(a, url) == StatusesAt(b, url) {
      CanonicalAtUrl(o, a, b, url);
    }
    UrlOrderIsWeak(o);
    SortSorts(Map(a, SortedProbe()), ByUrl(o));
    SortSorts(Map(b, SortedProbe()), ByUrl(o));
    if forall url :: StatusesAt(a, url) == StatusesAt(b, url) {
      assert SameAtUrls(p, q);
      SortedSameAtUrls(o, p, q);
    }
  }

  // ------------------------------------------------------------------- equivalence

  /** What two manifests must share for one fingerprint. Of the probes, each URL must have the same status
      sets; only probes that share a URL keep their order. */
  ghost predicate Equivalent(m: Manifest, n: Manifest) {
    && m.requiresCutover == n.requiresCutover
    && multiset(Map(m.artifacts, Bound)) == multiset(Map(n.artifacts, Bound))
    && multiset(m.services) == multiset(n.services)
    && multiset(m.sockets) == multiset(n.sockets)
    && (forall url :: StatusesAt(m.probes, url) == StatusesAt(n.probes, url))
    && multiset(m.validations) == multiset(n.validations)
  }

  lemma {:induction false} BoundTargets(artifacts: seq<Artifact>)
    ensures Map(Map(artifacts, Bound), Target) == Map(artifacts, Target)
  {
  }

  /** The canonical form forgets the order of artifacts, services, sockets, validations and statuses, the
      order of probes with different URLs and the staging directory, and nothing else. */
  lemma {:induction false} CanonicalMeansEquivalent(o: Orders, m: Manifest, n: Manifest)
    requires Total(o) && DistinctTargets(m)
    ensures Canonical(o, m) == Canonical(o, n) <==> Equivalent(m, n)
  {
    BoundTargets(m.artifacts);
    ArtifactsSortAlike(o, Map(m.artifacts, Bound), Map(n.artifacts, Bound));
    StringsSortAlike(o.units, m.services, n.services);
    StringsSortAlike(o.units, m.sockets, n.sockets);
    StringsSortAlike(o.units, m.validations, n.validations);
    ProbesSortAlike(o, m.probes, n.probes);
  }

  /** Equal fingerprints bind equal artifacts: every artifact of one manifest is in the other, staging path aside. */
  lemma {:induction false} EqualFormsBindArtifacts(o: Orders, m: Manifest, n: Manifest, a: Artifact)
    requires Total(o) && DistinctTargets(m) && Canonical(o, m) == Canonical(o, n) && a in m.artifacts
    ensures exists b <- n.artifacts :: Bound(b) == Bound(a)
  {
    CanonicalMeansEquivalent(o, m, n);
    SamePermutation(Map(m.artifacts, Bound), Map(n.artifacts, Bound));
    ImageOf(m.artifacts, Bound, a);
    var b := Preimage(n.artifacts, Bound, Bound(a));
  }

  /** The same artifact, staged somewhere else. */
  predicate StagedElsewhere(a: Artifact, b: Artifact) {
    && a.action == b.action && a.target == b.target && a.sha256 == b.sha256 && a.mode == b.mode && a.uid == b.uid && a.gid == b.gid
    && a.postCommitOnly == b.postCommitOnly
  }

  /** Where the files of a manifest are staged does not show in its canonical form. */
  lemma {:induction false} StagingDoesNotShow(o: Orders, m: Manifest, artifacts: seq<Artifact>)
    requires |artifacts| == |m.artifacts| && forall i | 0 <= i < |artifacts| :: StagedElsewhere(m.artifacts[i], artifacts[i])
    ensures Canonical(o, m.(artifacts := artifacts)) == Canonical(o, m)
  {
    forall i | 0 <= i < |artifacts| ensures Bound(m.artifacts[i]) == Bound(artifacts[i]) {
      assert StagedElsewhere(m.artifacts[i], artifacts[i]);
    }
    assert Map(m.artifacts, Bound) == Map(artifacts, Bound);
  }

  // --------------------------------------------------------------------- parsing

  predicate Hex64(s: string) { |s| == 64 && forall c <- s :: '0' <= c <= '9' || 'a' <= c <= 'f' }

  predicate NaturalOrAbsent(n: Option<int>) { n.Some? ==> n.value >= 0 }

  /** The rules for a single artifact; `managed` is the allowlist of runtime paths. */
  predicate Acceptable(managed: string -> bool, a: Artifact) {
    && (a.action == "create" || a.action == "replace" || a.action == "delete")
    && a.target != "" && managed(a.target)
    && (a.action == "delete" ==> a.stagedPath == None && a.sha256 == None && a.mode == None && a.uid == None && a.gid == None)
    && (a.action != "delete" ==> a.stagedPath.Some? && a.stagedPath.value != "" && a.sha256.Some? && Hex64(a.sha256.value))
    && NaturalOrAbsent(a.mode) && (a.mode.Some? ==> a.mode.value <= 4095) && NaturalOrAbsent(a.uid) && NaturalOrAbsent(a.gid)
    && (a.uid.Some? <==> a.gid.Some?)
    && (a.action == "create" ==> a.mode.Some? && a.uid.Some?)
    && (a.postCommitOnly ==> a.action == "delete")
  }

  predicate Digest(s: string) {
    |s| == 64 && forall i | 0 <= i < 64 :: s[i] in {'0', '1', '2', '3', '4', '5', '6', '7', '8', '9', 'a', 'b', 'c', 'd', 'e', 'f'}
  }

  /** Twelve bits of mode if there are any, and user and group together. */
  predicate MetadataFits(a: Artifact) {
    && (a.mode.Some? ==> 0 <= a.mode.value < 4096)
    && if a.uid.Some? then a.gid.Some? && a.uid.value >= 0 && a.gid.value >= 0 else a.gid == None
  }

  /** An artifact with a staged file of known content. */
  predicate Carries(a: Artifact) {
    a.stagedPath.Some? && a.stagedPath.value != "" && a.sha256.Some? && Digest(a.sha256.value) && !a.postCommitOnly
  }

  /** What a manifest may contain, action by action: a create with all its metadata, a replace with mode or owner or
      neither, and a delete with nothing, now or after the commit. */
  lemma {:induction false} AcceptableInWords(managed: string -> bool, a: Artifact)
    ensures Acceptable(managed, a) <==>
              && a.target != "" && managed(a.target)
              && if a.action == "delete" then a == Artifact("delete", a.target, None, None, None, None, None, a.postCommitOnly)
                 else if a.action == "create" then Carries(a) && a.mode.Some? && a.uid.Some? && MetadataFits(a)
                 else a.action == "replace" && Carries(a) && MetadataFits(a)
  {
    if a.sha256.Some? { DigestIsHex(a.sha256.value); }
  }

  lemma {:induction false} DigestIsHex(s: string)
    ensures Digest(s) <==> Hex64(s)
  {
    if Hex64(s) {
      forall i | 0 <= i < 64 ensures s[i] in {'0', '1', '2', '3', '4', '5', '6', '7', '8', '9', 'a', 'b', 'c', 'd', 'e', 'f'} {
        assert s[i] in s;
      }
    }
  }

  function AcceptableIn(managed: string -> bool): Artifact -> bool { (a: Artifact) => Acceptable(managed, a) }

  ghost predicate ArtifactsAcceptable(managed: string -> bool, artifacts: seq<Artifact>) {
    All(artifacts, AcceptableIn(managed)) && Distinct(Map(artifacts, Target))
  }

  /** The loop of parseManifest over the artifacts. */
  method ParseArtifacts(managed: string -> bool, artifacts: seq<Artifact>) returns (ok: bool)
    ensures ok <==> ArtifactsAcceptable(managed, artifacts)
  {
    var seenTargets: set<string> := {};
    for i := 0 to |artifacts|
      invariant seenTargets == Elements(Map(artifacts[..i], Target))
      invariant ArtifactsAcceptable(managed, artifacts[..i])
    {
      var a := artifacts[i];
      AcceptStep(managed, artifacts, i);
      if !Acceptable(managed, a) || a.target in seenTargets {
        StaysRefused(managed, artifacts, i);
        return false;
      }
      seenTargets := seenTargets + {a.target};
    }
    WholePrefix(artifacts);
    ok := true;
  }

  lemma {:induction false} AcceptStep(managed: string -> bool, artifacts: seq<Artifact>, i: nat)
    requires i < |artifacts|
    ensures ArtifactsAcceptable(managed, artifacts[..i + 1]) <==>
              ArtifactsAcceptable(managed, artifacts[..i]) && Acceptable(managed, artifacts[i])
              && artifacts[i].target !in Map(artifacts[..i], Target)
    ensures Elements(Map(artifacts[..i + 1], Target)) == Elements(Map(artifacts[..i], Target)) + {artifacts[i].target}
  {
    NextPrefix(artifacts, i);
    MapOne(artifacts[..i], artifacts[i], Target);
    DistinctGrows(Map(artifacts[..i], Target), artifacts[i].target);
    AllGrows(artifacts[..i], artifacts[i], AcceptableIn(managed));
  }

  lemma {:induction false} StaysRefused(managed: string -> bool, artifacts: seq<Artifact>, i: nat)
    requires i < |artifacts| && !ArtifactsAcceptable(managed, artifacts[..i + 1])
    ensures !ArtifactsAcceptable(managed, artifacts)
  {
    if ArtifactsAcceptable(managed, artifacts) {
      MapPrefix(artifacts, i + 1, Target);
      DistinctPrefix(Map(artifacts, Target), i + 1);
    }
  }

  // --------------------------------------------------------- from manifest to files

  /** readStagedRuntimeArtifact: the staged text must have the declared digest. */
  predicate Staged(staging: map<string, string>, digest: string -> string, a: Artifact) {
    a.stagedPath.Some? && a.stagedPath.value in staging && a.sha256 == Some(digest(staging[a.stagedPath.value]))
  }

  /** The artifact as the commit loop takes it. */
  function Loaded(staging: map<string, string>, a: Artifact): RuntimeApply.Artifact {
    if a.action == "delete" then RuntimeApply.Delete(a.target, a.postCommitOnly)
    else RuntimeApply.Write(a.target,
                            if a.stagedPath.Some? && a.stagedPath.value in staging then staging[a.stagedPath.value] else "",
                            a.action == "replace", Natural(a.mode),
                            if a.uid.Some? && a.gid.Some? then Some(RuntimeApply.Owner(Magnitude(a.uid.value), Magnitude(a.gid.value))) else None)
  }

  function Magnitude(n: int): nat { if n < 0 then 0 else n }
  function Natural(n: Option<int>): Option<nat> { if n.Some? then Some(Magnitude(n.value)) else None }

  function LoadedIn(staging: map<string, string>): Artifact -> RuntimeApply.Artifact { (a: Artifact) => Loaded(staging, a) }

  /** A manifest that parses is one the commit and cleanup theorems apply to. */
  lemma {:induction false} ParsedIsWellFormed(managed: string -> bool, staging: map<string, string>, artifacts: seq<Artifact>)
    requires ArtifactsAcceptable(managed, artifacts)
    ensures RuntimeApply.WellFormed(Map(artifacts, LoadedIn(staging)))
  {
    var loaded := Map(artifacts, LoadedIn(staging));
    forall a <- loaded ensures RuntimeApply.Declared(a) {
      var source := Preimage(artifacts, LoadedIn(staging), a);
      assert AcceptableIn(managed)(source);
    }
    assert Map(loaded, RuntimeApply.TargetOf) == Map(artifacts, Target);
  }

  lemma {:induction false} LoadedTarget(managed: string -> bool, staging: map<string, string>, artifacts: seq<Artifact>, a: RuntimeApply.Artifact)
    requires ArtifactsAcceptable(managed, artifacts) && a in Map(artifacts, LoadedIn(staging))
    ensures managed(a.target)
  {
    var source := Preimage(artifacts, LoadedIn(staging), a);
    assert AcceptableIn(managed)(source);
  }

  /** No accepted manifest reaches outside the managed paths: whatever is staged and whatever fails, its commit and
      its deferred deletes leave every other path as it is. */
  lemma {:induction false} OnlyManagedPathsChange(managed: string -> bool, staging: map<string, string>, artifacts: seq<Artifact>,
                                                  disk: RuntimeApply.Disk, faults: RuntimeApply.Faults, broken: set<string>, t: string)
    requires ArtifactsAcceptable(managed, artifacts) && !managed(t)
    ensures var loaded := Map(artifacts, LoadedIn(staging));
            && (forall a <- loaded :: RuntimeApply.Declared(a))
            && RuntimeApply.SameEntry(t, disk, RuntimeApply.CommitAll(disk, loaded, faults).disk)
            && RuntimeApply.SameEntry(t, disk, RuntimeApply.RemoveAll(disk, loaded, broken).disk)
  {
    var loaded := Map(artifacts, LoadedIn(staging));
    ParsedIsWellFormed(managed, staging, artifacts);
    forall a <- loaded ensures a.target != t { LoadedTarget(managed, staging, artifacts, a); }
    RuntimeApply.CommitStaysOnTargets(disk, loaded, faults, t);
    RuntimeApply.RemovalShape(disk, loaded, broken);
  }

  /** Only deletes wait for the cleanup, and a create never lacks the metadata a new file needs: an accepted
      manifest commits on every disk whose targets are regular files, if it replaces existing ones only. */
  lemma {:induction false} ParsedCommits(managed: string -> bool, staging: map<string, string>, artifacts: seq<Artifact>, disk: RuntimeApply.Disk)
    requires ArtifactsAcceptable(managed, artifacts)
    requires forall a <- artifacts :: a.target in disk ==> disk[a.target].Regular?
    requires forall a <- artifacts :: a.action == "replace" ==> a.target in disk
    ensures var loaded := Map(artifacts, LoadedIn(staging));
            && RuntimeApply.WellFormed(loaded) && RuntimeApply.CommitAll(disk, loaded, RuntimeApply.NO_FAULTS).ok
            && forall a <- artifacts :: a.postCommitOnly ==> a.action == "delete"
  {
    var loaded := Map(artifacts, LoadedIn(staging));
    ParsedIsWellFormed(managed, staging, artifacts);
    forall a <- loaded ensures a.Write? ==> RuntimeApply.Writable(a, disk) {
      var source := Preimage(artifacts, LoadedIn(staging), a);
      assert AcceptableIn(managed)(source);
    }
    RuntimeApply.CommitReaches(disk, loaded);
    forall a <- artifacts ensures a.postCommitOnly ==> a.action == "delete" { assert AcceptableIn(managed)(a); }
  }

  ghost predicate Separates(digest: string -> string) { forall x, y :: digest(x) == digest(y) ==> x == y }

  lemma {:induction false} BoundLoadAlike(a: Artifact, b: Artifact, here: map<string, string>, there: map<string, string>, digest: string -> string)
    requires Bound(b) == Bound(a) && a.action != "delete" && Separates(digest)
    requires Staged(here, digest, a) && Staged(there, digest, b)
    ensures Loaded(there, b) == Loaded(here, a)
  {
    assert Bound(b).action == a.action && Bound(b).target == a.target && Bound(b).mode == a.mode;
    assert Bound(b).sha256 == a.sha256 && Bound(b).uid == a.uid && Bound(b).gid == a.gid;
    assert digest(there[b.stagedPath.value]) == digest(here[a.stagedPath.value]);
  }

  /** Two hand-offs with one canonical form write the same bytes, wherever they are staged, as long as the
      digest separates different texts. */
  lemma {:induction false} EqualFormsWriteAlike(o: Orders, m: Manifest, n: Manifest, here: map<string, string>, there: map<string, string>,
                             digest: string -> string, a: Artifact)
    requires Total(o) && DistinctTargets(m) && Canonical(o, m) == Canonical(o, n) && a in m.artifacts
    requires Separates(digest) && a.action != "delete" && Staged(here, digest, a)
    requires forall b <- n.artifacts :: b.action != "delete" ==> Staged(there, digest, b)
    ensures exists b <- n.artifacts :: Loaded(there, b) == Loaded(here, a)
  {
    EqualFormsBindArtifacts(o, m, n, a);
    var b :| b in n.artifacts && Bound(b) == Bound(a);
    assert Bound(b).action == Bound(a).action;
    BoundLoadAlike(a, b, here, there, digest);
  }
}
