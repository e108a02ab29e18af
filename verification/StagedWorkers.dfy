/** The PHP workers a map hands out, read back from the pool texts of its rows
    (migrations/release/mapper.ts:436-440, 733-769, 818-858). */
module StagedWorkers {
  import opened Common
  import opened LegacySource
  import opened SitePlan
  import opened LegacyMap
  import opened MapCoverage
  import opened LegacyPool
  import SqlText

  // ------------------------------------------------------------- reading the rows

  /** The DOMAIN rows of one site that have PHP. */
  function PhpRowOf(siteId: string): MapRow -> bool {
    (row: MapRow) => row.kind == DomainKind && row.siteId == siteId && row.payload.phpVersion.Some?
  }

  ghost function PhpRows(env: Env, t: Tables, siteId: string): seq<MapRow>
    requires LegacyOk(env, t)
  {
    Filter(MapRows(env, t), PhpRowOf(siteId))
  }

  /** The worker limit a pool text puts into force: its only pm.max_children, as a number. */
  function WorkerLimit(text: string): Option<nat> {
    var limits := Filter(Effective(text), NamesLimit);
    if |limits| == 1 && limits[0].Directive? then SqlText.ParseNat(limits[0].value) else None
  }

  /** Nothing in the text belongs to the agent or to the panel, the worker limit aside. */
  ghost predicate CleanPool(text: string) {
    forall d <- Effective(text) :: d.Directive? && !NamesOwned(d) && (ManagedByPanel(d.key) ==> NamesLimit(d))
  }

  /** The workers a row asks for; 0 when its text has no worker limit or several. */
  function WorkersOf(row: MapRow): nat {
    var limit := WorkerLimit(TextOrEmpty(row.payload.phpPoolCustom));
    if limit.Some? then limit.value else 0
  }

  // ---------------------------------------------------------------- one pool text

  lemma {:induction false} AllottedPool(env: Env, site: Site, n: nat)
    requires PoolPasses(env, site)
    ensures var text := PoolText(PoolCustom(site), n); WorkerLimit(text) == Some(n) && CleanPool(text)
  {
    if site.phpPoolCustom.Some? {
      StagedPoolIsClean(site.phpPoolCustom.value, n);
    } else {
      PoolWithoutText(n);
    }
  }

  /** A site without a pool text stages the worker limit alone. */
  lemma {:induction false} PoolWithoutText(n: nat)
    ensures WorkerLimit(PoolText(None, n)) == Some(n) && CleanPool(PoolText(None, n))
  {
    var limit := Directive(MAX_CHILDREN, SqlText.DigitsOf(n));
    StagedPoolText(None, n);
    EffectiveOfNothing();
    SqlText.DigitsReadBack(n);
    LimitKeyCharacters();
    assert Effective(PoolText(None, n)) == [limit];
    assert Filter([limit], NamesLimit) == [limit];
    assert !NamesOwned(limit) by { assert PhpSelector(MAX_CHILDREN) == None; }
  }

  // ------------------------------------------------------------- the rows of a site

  lemma {:induction false} OnlyOwnPiece<T>(sites: seq<Site>, site: Site, f: Site -> seq<T>, p: T -> bool)
    requires Distinct(Map(sites, SiteId)) && forall s <- sites :: s.id != site.id ==> Filter(f(s), p) == []
    requires site.id in Map(sites, SiteId) ==> site in sites
    ensures Filter(Concat(sites, f), p) == if site in sites then Filter(f(site), p) else []
  {
    if sites != [] {
      var most, last := sites[..|sites| - 1], sites[|sites| - 1];
      assert sites == most + [last];
      FilterAppend(Concat(most, f), f(last), p);
      LastIsApart(most, last, site);
      OnlyOwnPiece(most, site, f, p);
    }
  }

  lemma {:induction false} LastIsApart(most: seq<Site>, last: Site, site: Site)
    requires Distinct(Map(most + [last], SiteId)) && (site.id in Map(most + [last], SiteId) ==> site in most + [last])
    ensures Distinct(Map(most, SiteId)) && (site.id in Map(most, SiteId) ==> site in most)
    ensures site in most ==> last.id != site.id
    ensures site !in most && last != site ==> last.id != site.id
  {
    MapOne(most, last, SiteId);
    DistinctGrows(Map(most, SiteId), last.id);
    if site in most { ImageOf(most, SiteId, site); }
    if last.id == site.id { ImageOf(most + [last], SiteId, last); }
  }

  lemma {:induction false} ForeignRows(env: Env, t: Tables, s: Site, siteId: string)
    requires s.id != siteId
    ensures Filter(RowsIn(env, t)(s), PhpRowOf(siteId)) == []
  {
    forall row <- RowsIn(env, t)(s) ensures !PhpRowOf(siteId)(row) {
      RowOrigin(env, t, s, row);
    }
    FilterNone(RowsIn(env, t)(s), PhpRowOf(siteId));
  }

  lemma {:induction false} NotPhpParts(env: Env, t: Tables, site: Site)
    requires SitePasses(env, t, site)
    ensures Filter([SiteRowIn(env, t, site)], PhpRowOf(site.id)) == []
    ensures Filter(DatabasePart(env, t, site), PhpRowOf(site.id)) == []
  {
    MapMembers(SortedDatabases(env, DatabasesFor(t, site)), DatabaseRowIn(env, t, site));
    FilterNone(DatabasePart(env, t, site), PhpRowOf(site.id));
  }

  lemma {:induction false} OwnRows(env: Env, t: Tables, site: Site)
    requires SitePasses(env, t, site)
    ensures Filter(RowsIn(env, t)(site), PhpRowOf(site.id)) == Filter(DomainPart(env, t, site), PhpRowOf(site.id))
  {
    RowsShape(env, t, site);
    NotPhpParts(env, t, site);
    FilterAppend([SiteRowIn(env, t, site)] + DomainPart(env, t, site), DatabasePart(env, t, site), PhpRowOf(site.id));
    FilterAppend([SiteRowIn(env, t, site)], DomainPart(env, t, site), PhpRowOf(site.id));
  }

  /** The site's domains with PHP, in position order. */
  ghost function PhpDomains(env: Env, t: Tables, site: Site): seq<Domain>
    requires SitePasses(env, t, site)
  {
    Filter(DomainsFor(env, t, site), PhpOn(env, site, PrimaryOf(DomainsFor(env, t, site)).id))
  }

  lemma {:induction false} PhpPart(env: Env, t: Tables, site: Site)
    requires SitePasses(env, t, site)
    ensures Filter(DomainPart(env, t, site), PhpRowOf(site.id)) == Map(PhpDomains(env, t, site), DomainRowIn(env, t, site))
  {
    FilterMap(DomainsFor(env, t, site), DomainRowIn(env, t, site), PhpRowOf(site.id),
              PhpOn(env, site, PrimaryOf(DomainsFor(env, t, site)).id));
  }

  /** The PHP rows of a site in the map are those of its PHP domains, in the map's order. */
  lemma {:induction false} PhpRowsOfSite(env: Env, t: Tables, site: Site)
    requires LegacyOk(env, t) && site in SitesOf(t.sites)
    ensures SitePasses(env, t, site)
    ensures multiset(PhpRows(env, t, site.id)) == multiset(Map(PhpDomains(env, t, site), DomainRowIn(env, t, site)))
  {
    var sites, rows := OrderedSites(env, t), Concat(OrderedSites(env, t), RowsIn(env, t));
    MappableSitePasses(env, t, site);
    MappableIds(env, t);
    forall s <- sites | s.id != site.id ensures Filter(RowsIn(env, t)(s), PhpRowOf(site.id)) == [] {
      ForeignRows(env, t, s, site.id);
    }
    OnlyOwnPiece(sites, site, RowsIn(env, t), PhpRowOf(site.id));
    OwnRows(env, t, site);
    PhpPart(env, t, site);
    FilterPermuted(rows, MapRows(env, t), PhpRowOf(site.id));
  }

  // ---------------------------------------------------------------------- the split

  lemma {:induction false} IndexIsPlace(ids: seq<string>, i: nat)
    requires Distinct(ids) && i < |ids|
    ensures IndexOf(ids, ids[i]) == i
  {
    if i > 0 {
      IndexIsPlace(ids[1..], i - 1);
    }
  }

  lemma {:induction false} PhpIdsDistinct(env: Env, t: Tables, site: Site)
    requires IdsDistinct(t) && SitePasses(env, t, site)
    ensures Map(PhpDomains(env, t, site), DomainId) == PhpIds(env, site, PrimaryOf(DomainsFor(env, t, site)).id, DomainsFor(env, t, site))
    ensures Distinct(Map(PhpDomains(env, t, site), DomainId))
  {
    SortedIdsDistinct(env, t, site);
    FilterKeepsDistinct(DomainsFor(env, t, site), PhpOn(env, site, PrimaryOf(DomainsFor(env, t, site)).id), DomainId);
  }

  /** What was observed as the workers of a site: the limit of its primary domain's pool. */
  ghost function ObservedWorkers(env: Env, t: Tables, site: Site): Num
    requires SitePasses(env, t, site)
  {
    EvidenceOf(env, PrimaryOf(DomainsFor(env, t, site)).id).poolMaxChildren
  }

  lemma {:induction false} RowOfPhpDomain(env: Env, site: Site, primaryId: string, d: Domain, workers: nat)
    requires PoolPasses(env, site) && PhpEnabled(env, site, primaryId, d.id)
    ensures var row := DomainRow(env, site, primaryId, d, workers);
            && row.payload.phpPoolCustom.Some? && CleanPool(row.payload.phpPoolCustom.value)
            && WorkerLimit(row.payload.phpPoolCustom.value) == Some(workers) && WorkersOf(row) == workers
  {
    AllottedPool(env, site, workers);
  }

  /** The staged limits of a site's PHP domains, in position order, are the even split of what was observed. */
  lemma {:induction false} WorkersAreShares(env: Env, t: Tables, site: Site)
    requires IdsDistinct(t) && SitePasses(env, t, site) && PhpDomains(env, t, site) != []
    ensures var php := PhpDomains(env, t, site);
            && ObservedWorkers(env, t, site).Whole? && ObservedWorkers(env, t, site).n >= |php|
            && Map(Map(php, DomainRowIn(env, t, site)), WorkersOf) == Shares(ObservedWorkers(env, t, site).n, |php|)
  {
    var php, rowOf := PhpDomains(env, t, site), DomainRowIn(env, t, site);
    PhpIdsDistinct(env, t, site);
    var workers, shares := Map(Map(php, rowOf), WorkersOf), Shares(ObservedWorkers(env, t, site).n, |php|);
    forall i | 0 <= i < |php| ensures workers[i] == shares[i] {
      WorkersOfPlace(env, t, site, i);
    }
  }

  lemma {:induction false} WorkersOfPlace(env: Env, t: Tables, site: Site, i: nat)
    requires IdsDistinct(t) && SitePasses(env, t, site) && i < |PhpDomains(env, t, site)|
    ensures ObservedWorkers(env, t, site).Whole? && ObservedWorkers(env, t, site).n >= |PhpDomains(env, t, site)|
    ensures WorkersOf(DomainRowIn(env, t, site)(PhpDomains(env, t, site)[i]))
         == Share(ObservedWorkers(env, t, site).n, |PhpDomains(env, t, site)|, i)
  {
    var php, primaryId := PhpDomains(env, t, site), PrimaryOf(DomainsFor(env, t, site)).id;
    var ids := PhpIds(env, site, primaryId, DomainsFor(env, t, site));
    PhpIdsDistinct(env, t, site);
    assert ids[i] == php[i].id;
    IndexIsPlace(ids, i);
    FilterMembers(DomainsFor(env, t, site), PhpOn(env, site, primaryId));
    assert php[i] in php;
    RowOfPhpDomain(env, site, primaryId, php[i], ShareOf(env, primaryId, ids, php[i].id));
  }

  lemma {:induction false} TotalOfTwo(a: seq<nat>, b: seq<nat>)
    ensures Total(a + b) == Total(a) + Total(b)
  {
    if b == [] {
      assert a + b == a;
    } else {
      assert (a + b)[..|a + b| - 1] == a + b[..|b| - 1];
      TotalOfTwo(a, b[..|b| - 1]);
    }
  }

  lemma {:induction false} TotalAround(front: seq<nat>, x: nat, back: seq<nat>)
    ensures Total(front + [x] + back) == x + Total(front + back)
  {
    assert [x][..0] == [];
    TotalOfTwo(front + [x], back);
    TotalOfTwo(front, [x]);
    TotalOfTwo(front, back);
  }

  lemma {:induction false} TotalPermuted(s: seq<nat>, t: seq<nat>)
    requires multiset(s) == multiset(t)
    ensures Total(s) == Total(t)
  {
    SamePermutation(s, t);
    if s != [] {
      assert s[0] in t;
      var j :| 0 <= j < |t| && t[j] == s[0];
      var front, back := t[..j], t[j + 1..];
      assert t == front + [s[0]] + back;
      TailMultiset(s);
      RemoveOne(front, s[0], back);
      TotalPermuted(s[1..], front + back);
      TotalAround(front, s[0], back);
      TotalOfTwo([s[0]], s[1..]);
      assert s == [s[0]] + s[1..] && [s[0]][..0] == [];
    }
  }

  // ------------------------------------------------------------------- the theorem

  /** Every text staged for a PHP domain has exactly one worker limit in force and nothing that belongs to
      the agent or the panel besides, whether or not the site had a pool text of its own. */
  lemma {:induction false} StagedPoolsAreClean(env: Env, t: Tables, site: Site)
    requires LegacyOk(env, t) && site in SitesOf(t.sites)
    ensures forall row <- PhpRows(env, t, site.id) ::
              row.payload.phpPoolCustom.Some? && CleanPool(row.payload.phpPoolCustom.value)
              && WorkerLimit(row.payload.phpPoolCustom.value).Some?
  {
    PhpRowsOfSite(env, t, site);
    var php, rowOf, primaryId := PhpDomains(env, t, site), DomainRowIn(env, t, site), PrimaryOf(DomainsFor(env, t, site)).id;
    SamePermutation(PhpRows(env, t, site.id), Map(php, rowOf));
    forall row <- PhpRows(env, t, site.id)
      ensures row.payload.phpPoolCustom.Some? && CleanPool(row.payload.phpPoolCustom.value)
              && WorkerLimit(row.payload.phpPoolCustom.value).Some?
    {
      var d := Preimage(php, rowOf, row);
      FilterMembers(DomainsFor(env, t, site), PhpOn(env, site, primaryId));
      var ids := PhpIds(env, site, primaryId, DomainsFor(env, t, site));
      RowOfPhpDomain(env, site, primaryId, d, ShareOf(env, primaryId, ids, d.id));
    }
  }

  /** Over the whole map: the worker limits staged for a site with PHP sum to what was observed, each PHP
      domain has a worker, and no two of them differ by more than one. */
  lemma {:induction false} StagedWorkersSplit(env: Env, t: Tables, site: Site)
    requires LegacyOk(env, t) && site in SitesOf(t.sites) && PhpRows(env, t, site.id) != []
    ensures SitePasses(env, t, site)
    ensures var workers := Map(PhpRows(env, t, site.id), WorkersOf);
            && ObservedWorkers(env, t, site) == Whole(Total(workers))
            && (forall w <- workers :: w >= 1)
            && (forall v, w | v in workers && w in workers :: v <= w + 1)
            && |workers| == |PhpDomains(env, t, site)|
  {
    PhpRowsOfSite(env, t, site);
    MappableIds(env, t);
    var php, rowOf := PhpDomains(env, t, site), DomainRowIn(env, t, site);
    SamePermutation(PhpRows(env, t, site.id), Map(php, rowOf));
    WorkersAreShares(env, t, site);
    SharedOut(PhpRows(env, t, site.id), Map(php, rowOf), ObservedWorkers(env, t, site).n);
  }

  lemma {:induction false} SharedOut(rows: seq<MapRow>, inOrder: seq<MapRow>, budget: nat)
    requires multiset(rows) == multiset(inOrder) && 0 < |inOrder| <= budget
    requires Map(inOrder, WorkersOf) == Shares(budget, |inOrder|)
    ensures var workers := Map(rows, WorkersOf);
            && Total(workers) == budget && |workers| == |inOrder|
            && (forall w <- workers :: w >= 1) && (forall v, w | v in workers && w in workers :: v <= w + 1)
  {
    MapPermuted(rows, inOrder, WorkersOf);
    TotalPermuted(Map(rows, WorkersOf), Map(inOrder, WorkersOf));
    SamePermutation(Map(rows, WorkersOf), Map(inOrder, WorkersOf));
    SplitIsExactAndFair(budget, |inOrder|);
  }
}
