/** The final check without its aggregates and lookup tables: what a database without violations looks like,
    said about single records and pairs of records (migrations/release/invariants.ts:89-93, 107-161, 168-253). */
module FinalVerdict {
  import opened Common
  import opened Claims
  import opened RuntimeKeys
  import opened LegacySource
  import opened Positions
  import opened FinalInvariants
  import LegacyPaths
  import LegacyPool

  // --------------------------------------------------------------------- positions

  /** The three aggregates hold exactly when the positions are 0 to n - 1, each of them taken. */
  lemma {:induction false} AggregatesMeanAllTaken(p: seq<int>)
    requires p != []
    ensures AggregatesContiguous(p) <==> forall n: int :: n in p <==> 0 <= n < |p|
  {
    if AggregatesContiguous(p) {
      WholeRange(p);
    }
    if forall n: int :: n in p <==> 0 <= n < |p| {
      assert Min(p) == 0 by { assert 0 in p; }
      assert Max(p) == |p| - 1 by { assert |p| - 1 in p; }
      BelowSize(|p|);
      assert Elements(p) == Below(|p|);
    }
  }

  function Below(n: nat): set<int> { if n == 0 then {} else Below(n - 1) + {n - 1} }

  lemma {:induction false} BelowSize(n: nat)
    ensures |Below(n)| == n && forall i :: i in Below(n) <==> 0 <= i < n
  {
    if n > 0 {
      BelowSize(n - 1);
    }
  }

  lemma {:induction false} SubsetSize<T>(a: set<T>, b: set<T>)
    requires a <= b
    ensures |a| <= |b| && (|a| == |b| ==> a == b)
  {
    if a != {} {
      var x :| x in a;
      SubsetSize(a - {x}, b - {x});
      assert a == a - {x} + {x} && b == b - {x} + {x};
    }
  }

  lemma {:induction false} WholeRange(p: seq<int>)
    requires AggregatesContiguous(p)
    ensures forall n: int :: n in p <==> 0 <= n < |p|
  {
    BelowSize(|p|);
    assert Elements(p) <= Below(|p|);
    SubsetSize(Elements(p), Below(|p|));
    forall n: int ensures n in p <==> 0 <= n < |p| {
      assert n in p <==> n in Elements(p);
    }
  }

  // ------------------------------------------------------------------ in plain words

  /** Some domain stands at position n. */
  predicate Taken(own: seq<FinalDomain>, n: int) { exists c <- own :: c.position == n }

  ghost predicate PositionsTaken(own: seq<FinalDomain>) {
    Once(own, (c: FinalDomain) => c.isPrimary) && forall n: int :: Taken(own, n) <==> 0 <= n < |own|
  }

  lemma {:induction false} TakenPositions(own: seq<FinalDomain>, n: int)
    ensures n in Map(own, FinalPosition) <==> Taken(own, n)
  {
    MapMembers(own, FinalPosition);
  }

  lemma {:induction false} PositionsInWords(own: seq<FinalDomain>)
    requires own != []
    ensures AggregatesContiguous(Map(own, FinalPosition)) <==> forall n: int :: Taken(own, n) <==> 0 <= n < |own|
  {
    AggregatesMeanAllTaken(Map(own, FinalPosition));
    forall n: int ensures n in Map(own, FinalPosition) <==> Taken(own, n) {
      TakenPositions(own, n);
    }
  }

  lemma {:induction false} GroupInWords(own: seq<FinalDomain>)
    requires own != []
    ensures GroupContiguous(own) <==> PositionsTaken(own)
  {
    FilterOnce(own, MarkedPrimary);
    PositionsInWords(own);
    assert Once(own, MarkedPrimary) <==> Once(own, (c: FinalDomain) => c.isPrimary) by {
      SameOnce(own, MarkedPrimary, (c: FinalDomain) => c.isPrimary);
    }
  }

  predicate UsableName(env: Env, text: Text) { text.Some? && env.hostname(text.value).Some? }

  predicate ItemNames(env: Env, items: seq<Text>, name: string) {
    exists item <- items :: item.Some? && env.hostname(item.value) == Some(name)
  }

  /** The host names a domain answers to: its own and those of its alias items. */
  ghost predicate AnswersTo(env: Env, c: FinalDomain, name: string) {
    || (c.domain.Some? && env.hostname(c.domain.value) == Some(name))
    || (c.aliases.Some? && env.aliasItems(c.aliases.value).Some?
        && ItemNames(env, env.aliasItems(c.aliases.value).value, name))
  }

  predicate AllNamesUsable(env: Env, c: FinalDomain) {
    UsableName(env, c.domain) && c.aliases.Some? && env.aliasItems(c.aliases.value).Some?
    && forall item <- env.aliasItems(c.aliases.value).value :: UsableName(env, item)
  }

  /** Every name can be used, and no name leads to two domains. */
  ghost predicate NamesApart(env: Env, f: Final) {
    && (forall c <- f.domains :: AllNamesUsable(env, c))
    && (forall c, e, name | c in f.domains && e in f.domains && AnswersTo(env, c, name) && AnswersTo(env, e, name) :: c.id == e.id)
  }

  lemma {:induction false} AliasItems(env: Env, items: seq<Text>)
    ensures AliasNames(env, items).Some? <==> forall item <- items :: UsableName(env, item)
    ensures AliasNames(env, items).Some? ==>
              forall name :: name in AliasNames(env, items).value <==> ItemNames(env, items, name)
  {
    if items != [] {
      var front, last := items[..|items| - 1], items[|items| - 1];
      AliasItems(env, front);
      assert items == front + [last];
      if AliasNames(env, items).Some? {
        forall name ensures name in AliasNames(env, items).value <==> ItemNames(env, items, name) {
          assert ItemNames(env, items, name) <==> ItemNames(env, front, name) || env.hostname(last.value) == Some(name);
        }
      }
    }
  }

  lemma {:induction false} OneDomainsNames(env: Env, c: FinalDomain)
    ensures FinalNamesUsable(env, c) <==> AllNamesUsable(env, c)
    ensures FinalNamesUsable(env, c) ==>
              forall claim :: claim in FinalNameClaims(env)(c)
                <==> claim.owner == c.id && !claim.exclusive && AnswersTo(env, c, claim.key)
  {
    if c.aliases.Some? && env.aliasItems(c.aliases.value).Some? {
      AliasItems(env, env.aliasItems(c.aliases.value).value);
    }
    if FinalNamesUsable(env, c) {
      var names := [env.hostname(c.domain.value).value] + Aliases(env, c.aliases.value).value;
      MapMembers(names, (name: string) => Claim(name, c.id, false));
      ClaimsOfNames(names, c.id);
    }
  }

  lemma {:induction false} ClaimsOfNames(names: seq<string>, id: string)
    ensures forall claim :: claim in Map(names, (name: string) => Claim(name, id, false))
              <==> claim.owner == id && !claim.exclusive && claim.key in names
  {
    MapMembers(names, (name: string) => Claim(name, id, false));
  }

  lemma {:induction false} NamesInWords(env: Env, f: Final)
    ensures HostnamesDisjoint(env, f) <==> NamesApart(env, f)
  {
    forall c <- f.domains ensures FinalNamesUsableIn(env)(c) <==> AllNamesUsable(env, c) { OneDomainsNames(env, c); }
    if forall c <- f.domains :: AllNamesUsable(env, c) {
      NameClaimsInWords(env, f);
    }
  }

  /** What the claims of one item are, when none of them is exclusive. */
  ghost predicate ClaimsOf<T>(x: T, claims: T -> seq<Claim>, id: T -> string, says: (T, string) -> bool) {
    forall claim :: claim in claims(x) <==> claim.owner == id(x) && !claim.exclusive && says(x, claim.key)
  }

  lemma {:induction false} ClaimIsMade<T>(items: seq<T>, claims: T -> seq<Claim>, id: T -> string, says: (T, string) -> bool, x: T, name: string)
    requires x in items && ClaimsOf(x, claims, id, says) && says(x, name)
    ensures Claim(name, id(x), false) in Concat(items, claims)
  {
    assert Claim(name, id(x), false) in claims(x);
    ConcatMembers(items, claims);
  }

  /** Claims are compatible exactly when two items that claim the same key are the same item. */
  lemma {:induction false} ClaimsInWords<T>(items: seq<T>, claims: T -> seq<Claim>, id: T -> string, says: (T, string) -> bool)
    requires forall x <- items :: ClaimsOf(x, claims, id, says)
    ensures Compatible(Concat(items, claims)) <==>
              forall x, y, name | x in items && y in items && says(x, name) && says(y, name) :: id(x) == id(y)
  {
    var all := Concat(items, claims);
    forall c <- all ensures exists x <- items :: c.owner == id(x) && !c.exclusive && says(x, c.key) {
      var x := PieceOf(items, claims, c);
      assert ClaimsOf(x, claims, id, says);
    }
    CompatibleMeansFunctional(all);
    if Functional(all) {
      forall x, y, name | x in items && y in items && says(x, name) && says(y, name) ensures id(x) == id(y) {
        ClaimIsMade(items, claims, id, says, x, name);
        ClaimIsMade(items, claims, id, says, y, name);
      }
    }
  }

  lemma {:induction false} NameClaimsInWords(env: Env, f: Final)
    requires forall c <- f.domains :: AllNamesUsable(env, c)
    ensures Compatible(Concat(f.domains, FinalNameClaims(env))) <==>
              forall c, e, name | c in f.domains && e in f.domains && AnswersTo(env, c, name) && AnswersTo(env, e, name) :: c.id == e.id
  {
    var id, says := (c: FinalDomain) => c.id, (c: FinalDomain, name: string) => AnswersTo(env, c, name);
    forall c <- f.domains ensures ClaimsOf(c, FinalNameClaims(env), id, says) { OneDomainsNames(env, c); }
    ClaimsInWords(f.domains, FinalNameClaims(env), id, says);
    if Compatible(Concat(f.domains, FinalNameClaims(env))) {
      forall c, e, name | c in f.domains && e in f.domains && AnswersTo(env, c, name) && AnswersTo(env, e, name)
        ensures c.id == e.id
      {
        assert says(c, name) && says(e, name);
      }
    }
  }

  // ---------------------------------------------------------------- one domain row

  predicate KeyInWords(env: Env, key: string, phpVersion: Text) {
    && 1 <= |key| <= 64 && 'a' <= key[0] <= 'z'
    && (forall c <- key :: 'a' <= c <= 'z' || '0' <= c <= '9' || c in "._-")
    && (phpVersion.Some? ==>
          && (exists dot | 0 <= dot < |phpVersion.value| :: phpVersion.value[dot] == '.'
                && Digits(phpVersion.value[..dot]) && Digits(phpVersion.value[dot + 1..]))
          && DirectoryBytes(env.socketDirectory) + LegacyPool.Utf8Bytes("php" + phpVersion.value + "-fpm-" + key + ".sock")
             <= env.socketMaxBytes)
  }

  /** A joined domain row without a violation, column by column. */
  predicate RowInWords(env: Env, root: Text, d: FinalDomain) {
    && d.preset.Some? && d.preset.value in ["MODX_REVO", "MODX_3", "CUSTOM"]
    && d.appStatus.Some? && d.appStatus.value in ["PROVISIONING", "RUNNING", "DEPLOYING", "UPDATING", "ERROR"]
    && root.Some? && root.value != "" && root.value[0] == '/' && d.filesRelPath.Some? && LegacyPaths.Clean(d.filesRelPath.value)
    && d.runtimeKey.Some? && KeyInWords(env, d.runtimeKey.value, d.phpVersion)
    && (d.appPort.NoNumber? || (d.appPort.Whole? && 0 < d.appPort.n < 65536))
  }

  lemma {:induction false} KeySaysTheSame(env: Env, key: string, phpVersion: Text)
    ensures KeyFits(env, key, phpVersion) <==> KeyInWords(env, key, phpVersion)
  {
    if phpVersion.Some? {
      SocketBytes(env.socketDirectory, SocketName(key, phpVersion.value));
    }
    assert "._-"[0] == '.' && "._-"[1] == '_' && "._-"[2] == '-';
  }

  lemma {:induction false} PathSaysTheSame(root: string, path: string)
    ensures PathClean(root, path) <==> root != "" && root[0] == '/' && LegacyPaths.Clean(path)
  {
    LegacyPaths.NormalizedFixedPoint(path);
    if LegacyPaths.Clean(path) {
      LegacyPaths.NormalizedIsContained(root, path);
    }
  }

  lemma {:induction false} RowSaysTheSame(env: Env, root: Text, d: FinalDomain)
    ensures RowSound(env, root, d) <==> RowInWords(env, root, d)
  {
    if d.runtimeKey.Some? { KeySaysTheSame(env, d.runtimeKey.value, d.phpVersion); }
    if root.Some? && d.filesRelPath.Some? { PathSaysTheSame(root.value, d.filesRelPath.value); }
  }

  /** Every domain with a site is sound in itself, and no two such domains share a runtime key. */
  ghost predicate RowsInWords(env: Env, f: Final) {
    && (forall d <- f.domains | RootOf(f.sites, d.siteId).Some? :: RowInWords(env, RootOf(f.sites, d.siteId).value, d))
    && KeysApart(f)
  }

  ghost predicate KeysApart(f: Final) {
    forall c, d, key | c in f.domains && d in f.domains && HoldsKey(f, c, key) && HoldsKey(f, d, key) :: c.id == d.id
  }

  lemma {:induction false} DomainsInWords(env: Env, f: Final)
    ensures DomainsSound(env, f) <==> RowsInWords(env, f)
  {
    forall d <- f.domains
      ensures DomainSoundIn(env, f)(d) <==>
                (RootOf(f.sites, d.siteId).Some? ==> RowInWords(env, RootOf(f.sites, d.siteId).value, d))
    {
      if RootOf(f.sites, d.siteId).Some? { RowSaysTheSame(env, RootOf(f.sites, d.siteId).value, d); }
    }
    if All(f.domains, DomainSoundIn(env, f)) {
      KeysInWords(env, f);
    }
  }

  /** The runtime key a joined domain holds. */
  predicate HoldsKey(f: Final, d: FinalDomain, key: string) {
    RootOf(f.sites, d.siteId).Some? && d.runtimeKey == Some(key)
  }

  lemma {:induction false} OneDomainsKey(env: Env, f: Final, d: FinalDomain)
    requires DomainSound(env, f, d)
    ensures forall claim :: claim in KeyClaims(f)(d) <==> claim.owner == d.id && !claim.exclusive && HoldsKey(f, d, claim.key)
  {
    if RootOf(f.sites, d.siteId).Some? {
      assert KeyClaims(f)(d) == [Claim(d.runtimeKey.value, d.id, false)];
    } else {
      assert KeyClaims(f)(d) == [];
    }
  }

  lemma {:induction false} KeysInWords(env: Env, f: Final)
    requires All(f.domains, DomainSoundIn(env, f))
    ensures Compatible(Concat(f.domains, KeyClaims(f))) <==> KeysApart(f)
  {
    var id, says := (c: FinalDomain) => c.id, (c: FinalDomain, key: string) => HoldsKey(f, c, key);
    forall d <- f.domains ensures ClaimsOf(d, KeyClaims(f), id, says) {
      assert DomainSoundIn(env, f)(d);
      OneDomainsKey(env, f, d);
    }
    ClaimsInWords(f.domains, KeyClaims(f), id, says);
    if Compatible(Concat(f.domains, KeyClaims(f))) {
      forall c, d, key | c in f.domains && d in f.domains && HoldsKey(f, c, key) && HoldsKey(f, d, key) ensures c.id == d.id {
        assert says(c, key) && says(d, key);
      }
    }
  }

  // --------------------------------------------------------------------- databases

  predicate MysqlPrimary(domainId: string, db: FinalDatabase) {
    db.siteDomainId == Some(domainId) && db.purpose == Some("APP_PRIMARY") && db.dbType in ["MARIADB", "MYSQL"]
  }

  /** Every database belongs to a domain of its site, with a known purpose; no domain has two databases of its own;
      and a managed MODX domain has PHP and one MySQL-compatible database of its own. */
  ghost predicate DatabasesInWords(f: Final) {
    && (forall db <- f.databases ::
          && (exists d <- f.domains :: db.siteDomainId == Some(d.id) && db.siteId == Some(d.siteId))
          && db.purpose.Some? && db.purpose.value in ["APP_PRIMARY", "AUXILIARY"])
    && (forall i, j | 0 <= i < j < |f.databases| ::
          f.databases[i].siteDomainId == f.databases[j].siteDomainId
          ==> f.databases[i].purpose != Some("APP_PRIMARY") || f.databases[j].purpose != Some("APP_PRIMARY"))
    && (forall d <- f.domains | d.preset == Some("MODX_REVO") || d.preset == Some("MODX_3") ::
          d.phpVersion.Some? && (exists c <- d.phpVersion.value :: c != ' ')
          && Once(f.databases, (db: FinalDatabase) => MysqlPrimary(d.id, db)))
  }

  lemma {:induction false} PrimariesInWords(f: Final)
    ensures OnePrimaryEach(f) <==>
              forall i, j | 0 <= i < j < |f.databases| ::
                f.databases[i].siteDomainId == f.databases[j].siteDomainId
                ==> f.databases[i].purpose != Some("APP_PRIMARY") || f.databases[j].purpose != Some("APP_PRIMARY")
  {
    forall db <- f.databases
      ensures |Filter(f.databases, PrimaryFor(db.siteDomainId))| >= 2 <==>
                exists i, j | 0 <= i < j < |f.databases| ::
                  PrimaryFor(db.siteDomainId)(f.databases[i]) && PrimaryFor(db.siteDomainId)(f.databases[j])
    {
      FilterHits(f.databases, PrimaryFor(db.siteDomainId));
    }
  }

  lemma {:induction false} ModxInWords(f: Final, d: FinalDomain)
    ensures ModxComplete(f, d) <==>
              (d.preset == Some("MODX_REVO") || d.preset == Some("MODX_3") ==>
                 d.phpVersion.Some? && (exists c <- d.phpVersion.value :: c != ' ')
                 && Once(f.databases, (db: FinalDatabase) => MysqlPrimary(d.id, db)))
  {
    FilterOnce(f.databases, ModxPrimary(d.id));
    SameOnce(f.databases, ModxPrimary(d.id), (db: FinalDatabase) => MysqlPrimary(d.id, db));
  }

  lemma {:induction false} DatabasesSayTheSame(f: Final)
    ensures DatabasesSound(f) <==> DatabasesInWords(f)
  {
    PrimariesInWords(f);
    forall d <- f.domains { ModxInWords(f, d); }
  }

  // ------------------------------------------------------------------- the theorem

  /** The checker reports nothing exactly for a database that keeps the row counts, gives every site a domain and
      every domain its place, keeps names and keys apart, and has sound rows and databases. */
  ghost predicate Sound(env: Env, f: Final, baseline: Counts) {
    && |f.sites| == baseline.sites && |f.domains| == baseline.siteDomains && |f.databases| == baseline.databases
    && (forall s <- f.sites :: exists d <- f.domains :: d.siteId == s.id)
    && (forall d <- f.domains :: PositionsTaken(Filter(f.domains, DomainOn(d.siteId))))
    && NamesApart(env, f) && RowsInWords(env, f) && DatabasesInWords(f)
  }

  lemma {:induction false} FinalOkMeansSound(env: Env, f: Final, baseline: Counts)
    ensures FinalOk(env, f, baseline) <==> Sound(env, f, baseline)
  {
    forall d <- f.domains ensures GroupContiguous(Filter(f.domains, DomainOn(d.siteId)))
                             <==> PositionsTaken(Filter(f.domains, DomainOn(d.siteId)))
    {
      FilterMembers(f.domains, DomainOn(d.siteId));
      assert d in Filter(f.domains, DomainOn(d.siteId));
      GroupInWords(Filter(f.domains, DomainOn(d.siteId)));
    }
    NamesInWords(env, f);
    DomainsInWords(env, f);
    DatabasesSayTheSame(f);
  }
}
