/** The host name registry the domain-centric migration fills after its table copy: one row per name, the
    lower-case text as primary key
    (api/prisma/migrations/z20260731000000_domain_centric_applications/migration.sql:556-594, 690-719). */
module HostnameRegistry {
  import opened Common
  import opened Claims
  import opened LegacySource
  import opened LegacyMap
  import opened MapCoverage
  import opened FinalInvariants
  import opened DomainCentricMigration
  import opened MigrationTheorem
  import opened MapGuard
  import LegacyPool

  // ------------------------------------------------------------------- the inserts

  /** json_each over the aliases: the text of each item, or of its domain. */
  function AliasItems(env: Env, aliases: Text): seq<Text> {
    if aliases.Some? && env.aliasItems(aliases.value).Some? then env.aliasItems(aliases.value).value else []
  }

  function ItemsOf(env: Env): FinalDomain -> seq<Text> { (c: FinalDomain) => AliasItems(env, c.aliases) }

  function Canonical(c: FinalDomain): string { LegacyPool.Lower(OrEmpty(c.domain)) }

  /** Blank aliases are not inserted. */
  function AliasHosts(env: Env): FinalDomain -> seq<string> {
    (c: FinalDomain) => Map(Filter(Map(AliasItems(env, c.aliases), OrEmpty), Filled), LegacyPool.Lower)
  }

  /** The names both inserts put into the registry, in order; lower() folds ASCII letters only. */
  function RegistryHosts(env: Env, f: Final): seq<string> { Map(f.domains, Canonical) + Concat(f.domains, AliasHosts(env)) }

  /** The inserts keep the primary key, and the row count is that of domains and alias items. That every name
      then has its row follows from the inserts. */
  ghost predicate RegistryStands(env: Env, f: Final) {
    Distinct(RegistryHosts(env, f)) && |RegistryHosts(env, f)| == |f.domains| + |Concat(f.domains, ItemsOf(env))|
  }

  // ------------------------------------------------------------------ the condition

  /** All spellings of one domain's names, lower-case. */
  function Spellings(env: Env, d: Domain): seq<string> {
    [LegacyPool.Lower(d.domain)] + Map(Map(AliasItems(env, Some(d.aliases)), OrEmpty), LegacyPool.Lower)
  }

  /** What normalizeHostname guarantees: letter case does not matter, and a blank text is no host name. */
  ghost predicate HostRules(env: Env) {
    && (forall a, b :: LegacyPool.Lower(a) == LegacyPool.Lower(b) ==> env.hostname(a) == env.hostname(b))
    && (forall a :: env.hostname(a).Some? ==> Filled(a))
  }

  // ----------------------------------------------------------------- generic pieces

  lemma {:induction false} Interleaved<S, T>(s: seq<S>, f: S -> T, g: S -> seq<T>, h: S -> seq<T>)
    requires forall x <- s :: h(x) == [f(x)] + g(x)
    ensures multiset(Map(s, f) + Concat(s, g)) == multiset(Concat(s, h))
  {
    if s != [] {
      var most, last := s[..|s| - 1], s[|s| - 1];
      assert s == most + [last];
      Interleaved(most, f, g, h);
      MapOne(most, last, f);
    }
  }

  lemma {:induction false} DistinctParts<T>(a: seq<T>, b: seq<T>)
    requires Distinct(a + b)
    ensures Distinct(a) && Distinct(b)
  {
    forall i, j | 0 <= i < j < |a| ensures a[i] != a[j] { assert (a + b)[i] != (a + b)[j]; }
    forall i, j | 0 <= i < j < |b| ensures b[i] != b[j] { assert (a + b)[|a| + i] != (a + b)[|a| + j]; }
  }

  /** Pieces with nothing in common are distinct together exactly when each of them is. */
  lemma {:induction false} DistinctPieces<S, T>(s: seq<S>, f: S -> seq<T>)
    requires forall i, j | 0 <= i < j < |s| :: forall y <- f(s[i]) :: y !in f(s[j])
    ensures Distinct(Concat(s, f)) <==> forall x <- s :: Distinct(f(x))
  {
    if s != [] {
      var most, last := s[..|s| - 1], s[|s| - 1];
      assert s == most + [last];
      DistinctPieces(most, f);
      forall y <- Concat(most, f) ensures y !in f(last) {
        var x := PieceOf(most, f, y);
        var i :| 0 <= i < |most| && most[i] == x;
        assert s[i] == x && s[|s| - 1] == last;
      }
      if Distinct(Concat(s, f)) { DistinctParts(Concat(most, f), f(last)); }
      if forall x <- s :: Distinct(f(x)) { DistinctAppend(Concat(most, f), f(last)); }
    }
  }

  lemma {:induction false} SameLengths<S, T, U>(s: seq<S>, f: S -> seq<T>, g: S -> seq<U>)
    requires forall x <- s :: |f(x)| == |g(x)|
    ensures |Concat(s, f)| == |Concat(s, g)|
  {
    if s != [] {
      SameLengths(s[..|s| - 1], f, g);
    }
  }

  // --------------------------------------------------------------- names of a domain

  lemma {:induction false} AliasNameAt(env: Env, items: seq<Text>, i: nat)
    requires AliasNames(env, items).Some? && i < |items|
    ensures |AliasNames(env, items).value| == |items|
    ensures items[i].Some? && env.hostname(items[i].value) == Some(AliasNames(env, items).value[i])
  {
    AliasNamesLength(env, items);
    if i < |items| - 1 {
      AliasNamesLength(env, items[..|items| - 1]);
      AliasNameAt(env, items[..|items| - 1], i);
    }
  }

  lemma {:induction false} AliasNamesLength(env: Env, items: seq<Text>)
    requires AliasNames(env, items).Some?
    ensures |AliasNames(env, items).value| == |items|
  {
    if items != [] { AliasNamesLength(env, items[..|items| - 1]); }
  }

  lemma {:induction false} NameIsClaimed(env: Env, d: Domain, name: string)
    requires NamesUsable(env, d.domain, d.aliases)
    requires name == env.hostname(d.domain).value || name in Aliases(env, d.aliases).value
    ensures Claim(name, d.id, false) in HostClaims(env)(d)
  {
    var names := [env.hostname(d.domain).value] + Aliases(env, d.aliases).value;
    assert name in names by { if name == names[0] {} else { assert name in Aliases(env, d.aliases).value; } }
    ImageOf(names, (n: string) => Claim(n, d.id, false), name);
  }

  /** Every spelling is that of a claimed host name. */
  lemma {:induction false} SpellingIsClaimed(env: Env, d: Domain, y: string) returns (raw: string)
    requires NamesUsable(env, d.domain, d.aliases) && y in Spellings(env, d)
    ensures LegacyPool.Lower(raw) == y && env.hostname(raw).Some? && Claim(env.hostname(raw).value, d.id, false) in HostClaims(env)(d)
  {
    if y == LegacyPool.Lower(d.domain) {
      raw := d.domain;
      NameIsClaimed(env, d, env.hostname(raw).value);
    } else {
      var items := AliasItems(env, Some(d.aliases));
      raw := Preimage(Map(items, OrEmpty), LegacyPool.Lower, y);
      var item := Preimage(items, OrEmpty, raw);
      var i :| 0 <= i < |items| && items[i] == item;
      AliasNameAt(env, items, i);
      NameIsClaimed(env, d, env.hostname(raw).value);
    }
  }

  lemma {:induction false} ClaimOfDomain(env: Env, t: Tables, d: Domain, c: Claim)
    requires d in DomainsOf(t.domains) && c in HostClaims(env)(d)
    ensures c in Concat(DomainsOf(t.domains), HostClaims(env))
  {
    PieceIsIn(DomainsOf(t.domains), HostClaims(env), d);
  }

  /** Two domains of a mappable installation have no spelling in common. */
  lemma {:induction false} SpellingsApart(env: Env, t: Tables, a: Domain, b: Domain, y: string)
    requires LegacyOk(env, t) && HostRules(env) && a in DomainsOf(t.domains) && b in DomainsOf(t.domains) && a.id != b.id
    requires y in Spellings(env, a)
    ensures y !in Spellings(env, b)
  {
    if y in Spellings(env, b) {
      DomainReadable(env, t, a);
      DomainReadable(env, t, b);
      var p := SpellingIsClaimed(env, a, y);
      var q := SpellingIsClaimed(env, b, y);
      ClaimOfDomain(env, t, a, Claim(env.hostname(p).value, a.id, false));
      ClaimOfDomain(env, t, b, Claim(env.hostname(q).value, b.id, false));
      CompatibleMeansFunctional(Concat(DomainsOf(t.domains), HostClaims(env)));
    }
  }

  // ----------------------------------------------------------- names of a migrated domain

  function NamesOf(env: Env): FinalDomain -> seq<string> { (c: FinalDomain) => [Canonical(c)] + AliasHosts(env)(c) }

  /** After the copy a domain's registry names are its spellings, one per alias item. */
  lemma {:induction false} MirroredNames(env: Env, d: Domain, c: FinalDomain)
    requires NamesUsable(env, d.domain, d.aliases) && HostRules(env) && KeepsRouting(d, c)
    ensures NamesOf(env)(c) == Spellings(env, d) && |AliasHosts(env)(c)| == |ItemsOf(env)(c)|
  {
    var items := AliasItems(env, Some(d.aliases));
    var texts := Map(items, OrEmpty);
    forall text <- texts ensures Filled(text) {
      var item := Preimage(items, OrEmpty, text);
      var i :| 0 <= i < |items| && items[i] == item;
      AliasNameAt(env, items, i);
    }
    FilterAll(texts, Filled);
    assert AliasItems(env, c.aliases) == items && Canonical(c) == LegacyPool.Lower(d.domain);
    assert AliasHosts(env)(c) == Map(texts, LegacyPool.Lower);
  }

  lemma {:induction false} NamesApart(env: Env, t: Tables, i: nat, j: nat, y: string)
    requires LegacyOk(env, t) && HostRules(env) && i < j < |DomainsOf(t.domains)|
    requires var domains := DomainsOf(t.domains); y in Spellings(env, domains[i])
    ensures var domains := DomainsOf(t.domains); y !in Spellings(env, domains[j])
  {
    var domains := DomainsOf(t.domains);
    MappableIds(env, t);
    assert Map(domains, DomainId)[i] != Map(domains, DomainId)[j];
    SpellingsApart(env, t, domains[i], domains[j], y);
  }

  function SpellingsOf(env: Env): Domain -> seq<string> { (d: Domain) => Spellings(env, d) }

  lemma {:induction false} AllMirrored(env: Env, t: Tables)
    requires LegacyOk(env, t) && HostRules(env)
    ensures forall d <- DomainsOf(t.domains) ::
              NamesOf(env)(MirrorOf(env, t)(d)) == SpellingsOf(env)(d)
              && |AliasHosts(env)(MirrorOf(env, t)(d))| == |ItemsOf(env)(MirrorOf(env, t)(d))|
  {
    RoutingKept(env, t);
    forall d <- DomainsOf(t.domains)
      ensures NamesOf(env)(MirrorOf(env, t)(d)) == SpellingsOf(env)(d)
              && |AliasHosts(env)(MirrorOf(env, t)(d))| == |ItemsOf(env)(MirrorOf(env, t)(d))|
    {
      DomainReadable(env, t, d);
      MirroredNames(env, d, MirrorOf(env, t)(d));
    }
  }

  /** The registry holds the spellings of all domains, and as many as there are domains and alias items. */
  lemma {:induction false} RegistryHoldsSpellings(env: Env, t: Tables)
    requires LegacyOk(env, t) && HostRules(env)
    ensures var f := Migrated(env, t);
            && multiset(RegistryHosts(env, f)) == multiset(Concat(DomainsOf(t.domains), SpellingsOf(env)))
            && |RegistryHosts(env, f)| == |f.domains| + |Concat(f.domains, ItemsOf(env))|
  {
    var f, domains, mirror := Migrated(env, t), DomainsOf(t.domains), MirrorOf(env, t);
    AllMirrored(env, t);
    DomainsMirrored(env, t);
    Interleaved(f.domains, Canonical, AliasHosts(env), NamesOf(env));
    ConcatMap(domains, mirror, NamesOf(env), SpellingsOf(env));
    forall c <- f.domains ensures |AliasHosts(env)(c)| == |ItemsOf(env)(c)| {
      var d := Preimage(domains, mirror, c);
    }
    SameLengths(f.domains, AliasHosts(env), ItemsOf(env));
  }

  lemma {:induction false} SpellingsDistinct(env: Env, t: Tables)
    requires LegacyOk(env, t) && HostRules(env)
    ensures Distinct(Concat(DomainsOf(t.domains), SpellingsOf(env)))
       <==> forall d <- DomainsOf(t.domains) :: Distinct(Spellings(env, d))
  {
    var domains, spell := DomainsOf(t.domains), SpellingsOf(env);
    forall i, j | 0 <= i < j < |domains| ensures forall y <- spell(domains[i]) :: y !in spell(domains[j]) {
      forall y <- spell(domains[i]) ensures y !in spell(domains[j]) { NamesApart(env, t, i, j, y); }
    }
    DistinctPieces(domains, spell);
  }

  /** Mapper and checker let a domain claim one name twice, the registry does not. For a mappable
      installation the registry can be filled exactly when no domain repeats a spelling, letter case aside,
      among its own name and its aliases. */
  lemma {:induction false} RegistryAsksNoRepeats(env: Env, t: Tables)
    requires LegacyOk(env, t) && HostRules(env)
    ensures RegistryStands(env, Migrated(env, t)) <==> forall d <- DomainsOf(t.domains) :: Distinct(Spellings(env, d))
  {
    RegistryHoldsSpellings(env, t);
    SpellingsDistinct(env, t);
    var hosts, spellings := RegistryHosts(env, Migrated(env, t)), Concat(DomainsOf(t.domains), SpellingsOf(env));
    if Distinct(hosts) { PermutationDistinct(hosts, spellings); }
    if Distinct(spellings) { PermutationDistinct(spellings, hosts); }
  }

  lemma {:induction false} RepeatIsRefused(env: Env, t: Tables, d: Domain)
    requires LegacyOk(env, t) && HostRules(env) && d in DomainsOf(t.domains) && !Distinct(Spellings(env, d))
    ensures !RegistryStands(env, Migrated(env, t))
  {
    RegistryAsksNoRepeats(env, t);
  }
}
