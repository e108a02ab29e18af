/** The ordered resolver of a site's primary database (migrations/release/mapper.ts:253-287). */
module PrimaryDatabase {
  import opened Common
  import opened LegacySource

  datatype Choice = Chosen(database: Database) | NoCandidate | Ambiguous

  predicate MysqlCompatible(d: Database) { d.dbType == "MARIADB" || d.dbType == "MYSQL" }

  function Persisted(primaryId: string): Database -> bool {
    (d: Database) => d.siteDomainId == Some(primaryId) && d.purpose == Some("APP_PRIMARY") && MysqlCompatible(d)
  }

  function Installed(siteName: string): Database -> bool {
    (d: Database) => MysqlCompatible(d) && d.name == siteName && d.dbUser == Some(siteName)
  }

  function Configured(name: string): Database -> bool {
    (d: Database) => MysqlCompatible(d) && d.name == name
  }

  function ExactlyOne(candidates: seq<Database>): Choice {
    if |candidates| == 1 then Chosen(candidates[0]) else if candidates == [] then NoCandidate else Ambiguous
  }

  /** The rules in order; the managed configuration counts only when evidence names a database. */
  function Rules(site: Site, primary: Domain, modxDatabaseName: Text): seq<Database -> bool> {
    [Persisted(primary.id), Installed(site.name)]
    + (if modxDatabaseName.Some? then [Configured(modxDatabaseName.value)] else [])
    + [MysqlCompatible]
  }

  /** The first rule that any database meets decides, and it decides only when a single database meets it. */
  function FirstDecisive(rules: seq<Database -> bool>, databases: seq<Database>): Choice {
    if rules == [] then NoCandidate
    else
      var choice := ExactlyOne(Filter(databases, rules[0]));
      if choice != NoCandidate then choice else FirstDecisive(rules[1..], databases)
  }

  function ResolvePrimaryDatabase(site: Site, primary: Domain, databases: seq<Database>, modxDatabaseName: Text): Choice {
    FirstDecisive(Rules(site, primary, modxDatabaseName), databases)
  }

  /** The result said without the cascade: which rule decides, and what it finds. */
  ghost predicate Decides(rules: seq<Database -> bool>, databases: seq<Database>, k: nat) {
    k < |rules| && (exists d <- databases :: rules[k](d)) && forall j, d | 0 <= j < k && d in databases :: !rules[j](d)
  }

  lemma {:induction false} DecisiveRule(rules: seq<Database -> bool>, databases: seq<Database>, k: nat)
    requires Decides(rules, databases, k)
    ensures FirstDecisive(rules, databases) == ExactlyOne(Filter(databases, rules[k]))
  {
    FilterMembers(databases, rules[0]);
    if k > 0 {
      FilterNone(databases, rules[0]);
      forall j, d | 0 <= j < k - 1 && d in databases ensures !rules[1..][j](d) {
        assert !rules[j + 1](d);
      }
      DecisiveRule(rules[1..], databases, k - 1);
    } else {
      var d :| d in databases && rules[0](d);
      assert d in Filter(databases, rules[0]);
    }
  }

  /** A chosen database is one of the site's own MySQL-compatible databases and the only one its rule admits. */
  lemma {:induction false} ChosenIsUnique(rules: seq<Database -> bool>, databases: seq<Database>)
    requires FirstDecisive(rules, databases).Chosen?
    ensures var d := FirstDecisive(rules, databases).database;
            d in databases && exists k | 0 <= k < |rules| :: Filter(databases, rules[k]) == [d]
  {
    var d := FirstDecisive(rules, databases).database;
    FilterMembers(databases, rules[0]);
    var hits := Filter(databases, rules[0]);
    if ExactlyOne(hits) != NoCandidate {
      assert d in hits && hits == [d];
    } else {
      ChosenIsUnique(rules[1..], databases);
      var k :| 0 <= k < |rules[1..]| && Filter(databases, rules[1..][k]) == [d];
      assert rules[1..][k] == rules[k + 1];
    }
  }

  lemma {:induction false} ChosenIsMysql(site: Site, primary: Domain, databases: seq<Database>, modxDatabaseName: Text)
    requires ResolvePrimaryDatabase(site, primary, databases, modxDatabaseName).Chosen?
    ensures var d := ResolvePrimaryDatabase(site, primary, databases, modxDatabaseName).database;
            d in databases && MysqlCompatible(d)
  {
    var rules := Rules(site, primary, modxDatabaseName);
    ChosenIsUnique(rules, databases);
    var d := FirstDecisive(rules, databases).database;
    var k :| 0 <= k < |rules| && Filter(databases, rules[k]) == [d];
    FilterMembers(databases, rules[k]);
    assert d in Filter(databases, rules[k]);
    RulesAdmitMysql(site, primary, modxDatabaseName, k, d);
  }

  lemma {:induction false} RulesAdmitMysql(site: Site, primary: Domain, modxDatabaseName: Text, k: nat, d: Database)
    requires k < |Rules(site, primary, modxDatabaseName)| && Rules(site, primary, modxDatabaseName)[k](d)
    ensures MysqlCompatible(d)
  {
    var rules := Rules(site, primary, modxDatabaseName);
    if k == |rules| - 1 {
      assert rules[k] == MysqlCompatible;
    } else if k == 2 {
      assert rules[k] == Configured(modxDatabaseName.value);
    }
  }

  /** Only the last rule can be reached without a choice being possible: a site with MySQL-compatible databases
      gets an answer or an ambiguity, never silence. */
  lemma {:induction false} SilenceMeansNoMysql(site: Site, primary: Domain, databases: seq<Database>, modxDatabaseName: Text)
    ensures ResolvePrimaryDatabase(site, primary, databases, modxDatabaseName) == NoCandidate
       <==> forall d <- databases :: !MysqlCompatible(d)
  {
    var rules := Rules(site, primary, modxDatabaseName);
    assert rules[|rules| - 1] == MysqlCompatible;
    if forall d <- databases :: !MysqlCompatible(d) {
      forall j, d | 0 <= j < |rules| && d in databases ensures !rules[j](d) {}
      NothingDecides(rules, databases);
    } else {
      SomethingDecides(rules, databases);
    }
  }

  lemma {:induction false} NothingDecides(rules: seq<Database -> bool>, databases: seq<Database>)
    requires forall j, d | 0 <= j < |rules| && d in databases :: !rules[j](d)
    ensures FirstDecisive(rules, databases) == NoCandidate
  {
    if rules != [] {
      FilterNone(databases, rules[0]);
      NothingDecides(rules[1..], databases);
    }
  }

  lemma {:induction false} SomethingDecides(rules: seq<Database -> bool>, databases: seq<Database>)
    requires rules != [] && exists d <- databases :: rules[|rules| - 1](d)
    ensures FirstDecisive(rules, databases) != NoCandidate
  {
    var d :| d in databases && rules[|rules| - 1](d);
    FilterMembers(databases, rules[0]);
    if ExactlyOne(Filter(databases, rules[0])) == NoCandidate {
      assert |rules| > 1;
      assert rules[1..][|rules[1..]| - 1] == rules[|rules| - 1];
      SomethingDecides(rules[1..], databases);
    }
  }

  /** The resolver does not depend on the order the databases are read in. */
  lemma {:induction false} ChoiceIgnoresOrder(rules: seq<Database -> bool>, s: seq<Database>, t: seq<Database>)
    requires multiset(s) == multiset(t)
    ensures FirstDecisive(rules, s) == FirstDecisive(rules, t)
  {
    if rules != [] {
      FilterPermuted(s, t, rules[0]);
      ExactlyOneIgnoresOrder(Filter(s, rules[0]), Filter(t, rules[0]));
      ChoiceIgnoresOrder(rules[1..], s, t);
    }
  }

  lemma {:induction false} ExactlyOneIgnoresOrder(a: seq<Database>, b: seq<Database>)
    requires multiset(a) == multiset(b)
    ensures ExactlyOne(a) == ExactlyOne(b)
  {
    SamePermutation(a, b);
    if |a| == 1 {
      assert a[0] in a && a[0] in b;
    }
  }

  // -------------------------------------------------------- which rule comes when

  /** The only database a wish admits, as far as ids tell them apart. */
  ghost predicate Sole(databases: seq<Database>, wanted: Database -> bool, d: Database) {
    d in databases && wanted(d) && forall e | e in databases && wanted(e) :: e.id == d.id
  }

  ghost predicate Wished(databases: seq<Database>, wanted: Database -> bool) { exists d :: d in databases && wanted(d) }

  /** A wish that some database meets decides: the only one is chosen, several are ambiguous. */
  ghost predicate Settles(databases: seq<Database>, wanted: Database -> bool, answer: Choice) {
    && Wished(databases, wanted)
    && (answer.Chosen? ==> Sole(databases, wanted, answer.database))
    && (!answer.Chosen? ==> answer == Ambiguous && forall d :: !Sole(databases, wanted, d))
  }

  lemma {:induction false} TwoAreNotSole(databases: seq<Database>, wanted: Database -> bool, a: Database, b: Database)
    requires a in databases && b in databases && wanted(a) && wanted(b) && a.id != b.id
    ensures forall d :: !Sole(databases, wanted, d)
  {
  }

  lemma {:induction false} OneOrSeveral(databases: seq<Database>, wanted: Database -> bool)
    requires Distinct(Map(databases, DatabaseId)) && Wished(databases, wanted)
    ensures Settles(databases, wanted, ExactlyOne(Filter(databases, wanted)))
  {
    var hits := Filter(databases, wanted);
    FilterMembers(databases, wanted);
    FilterKeepsDistinct(databases, wanted, DatabaseId);
    var d :| d in databases && wanted(d);
    assert d in hits;
    if |hits| > 1 {
      assert Map(hits, DatabaseId)[0] != Map(hits, DatabaseId)[1];
      assert hits[0] in hits && hits[1] in hits;
      TwoAreNotSole(databases, wanted, hits[0], hits[1]);
    }
  }

  lemma {:induction false} RuleSettles(rules: seq<Database -> bool>, databases: seq<Database>, k: nat)
    requires Distinct(Map(databases, DatabaseId)) && Decides(rules, databases, k)
    ensures Settles(databases, rules[k], FirstDecisive(rules, databases))
  {
    DecisiveRule(rules, databases, k);
    OneOrSeveral(databases, rules[k]);
  }

  lemma {:induction false} SameWish(databases: seq<Database>, wanted: Database -> bool, other: Database -> bool, answer: Choice)
    requires (forall d :: wanted(d) <==> other(d)) && Settles(databases, wanted, answer)
    ensures Settles(databases, other, answer)
  {
    forall d ensures Sole(databases, wanted, d) <==> Sole(databases, other, d) {}
  }

  /** The k-th rule decides when no database meets an earlier one; `wish` says the rule in other words. */
  lemma {:induction false} WishDecides(rules: seq<Database -> bool>, databases: seq<Database>, k: nat, wish: Database -> bool)
    requires Distinct(Map(databases, DatabaseId)) && k < |rules| && (forall d :: rules[k](d) <==> wish(d))
    requires Wished(databases, wish) && forall j | 0 <= j < k :: !Wished(databases, rules[j])
    ensures Settles(databases, wish, FirstDecisive(rules, databases))
  {
    var d :| d in databases && wish(d);
    assert rules[k](d);
    forall j, e | 0 <= j < k && e in databases ensures !rules[j](e) {
      assert !Wished(databases, rules[j]);
    }
    RuleSettles(rules, databases, k);
    SameWish(databases, rules[k], wish, FirstDecisive(rules, databases));
  }

  // What a database may be to a site, field by field.
  predicate MysqlType(d: Database) { d.dbType in ["MARIADB", "MYSQL"] }
  function RecordedFor(primary: Domain): Database -> bool {
    (d: Database) => MysqlType(d) && d.purpose == Some("APP_PRIMARY") && d.siteDomainId == Some(primary.id)
  }
  function NamedLike(site: Site): Database -> bool {
    (d: Database) => MysqlType(d) && d.name == site.name && d.dbUser == Some(site.name)
  }
  function NamedBy(evidence: Text): Database -> bool { (d: Database) => MysqlType(d) && evidence == Some(d.name) }

  /** The order of the choice: a database recorded as the primary domain's application database comes first,
      then one named and owned like the site, then the one the site's configuration names, then the only
      MySQL-type one. The first wish that any database meets is the last one asked. */
  lemma {:induction false} OrderOfChoice(site: Site, primary: Domain, databases: seq<Database>, modxDatabaseName: Text)
    requires Distinct(Map(databases, DatabaseId))
    ensures var answer := ResolvePrimaryDatabase(site, primary, databases, modxDatabaseName);
            if Wished(databases, RecordedFor(primary)) then Settles(databases, RecordedFor(primary), answer)
            else if Wished(databases, NamedLike(site)) then Settles(databases, NamedLike(site), answer)
            else if Wished(databases, NamedBy(modxDatabaseName)) then Settles(databases, NamedBy(modxDatabaseName), answer)
            else if Wished(databases, MysqlType) then Settles(databases, MysqlType, answer)
            else answer == NoCandidate
  {
    var rules := Rules(site, primary, modxDatabaseName);
    RulesInWords(site, primary, modxDatabaseName);
    SameWished(databases, rules[0], RecordedFor(primary));
    SameWished(databases, rules[1], NamedLike(site));
    if modxDatabaseName.Some? { SameWished(databases, rules[2], NamedBy(modxDatabaseName)); }
    if Wished(databases, RecordedFor(primary)) {
      WishDecides(rules, databases, 0, RecordedFor(primary));
    } else if Wished(databases, NamedLike(site)) {
      WishDecides(rules, databases, 1, NamedLike(site));
    } else if Wished(databases, NamedBy(modxDatabaseName)) {
      WishDecides(rules, databases, 2, NamedBy(modxDatabaseName));
    } else if Wished(databases, MysqlType) {
      WishDecides(rules, databases, |rules| - 1, MysqlType);
    } else {
      SilenceMeansNoMysql(site, primary, databases, modxDatabaseName);
      assert forall d :: MysqlCompatible(d) <==> MysqlType(d);
    }
  }

  lemma {:induction false} SameWished(databases: seq<Database>, wanted: Database -> bool, other: Database -> bool)
    requires forall d :: wanted(d) <==> other(d)
    ensures Wished(databases, wanted) <==> Wished(databases, other)
  {
  }

  lemma {:induction false} RulesInWords(site: Site, primary: Domain, modxDatabaseName: Text)
    ensures var rules := Rules(site, primary, modxDatabaseName);
            && |rules| == (if modxDatabaseName.Some? then 4 else 3)
            && (forall d :: rules[0](d) <==> RecordedFor(primary)(d)) && (forall d :: rules[1](d) <==> NamedLike(site)(d))
            && (modxDatabaseName.Some? ==> forall d :: rules[2](d) <==> NamedBy(modxDatabaseName)(d))
            && (forall d :: rules[|rules| - 1](d) <==> MysqlType(d))
  {
    var rules := Rules(site, primary, modxDatabaseName);
    assert rules[|rules| - 1] == MysqlCompatible;
    assert modxDatabaseName.Some? ==> rules[2] == Configured(modxDatabaseName.value);
  }
}
