/** First-come registration of names, as the mapper and the final checker do it with a JavaScript Map
    (migrations/release/mapper.ts:464-483, 677-700, 813-816; migrations/release/invariants.ts:134-161, 181-213). */
module Claims {
  import opened Common

  /** `exclusive` claims tolerate no earlier registration of the key, not even by the same owner. */
  datatype Claim = Claim(key: string, owner: string, exclusive: bool)

  ghost predicate Clash(earlier: Claim, later: Claim) {
    earlier.key == later.key && (later.exclusive || earlier.owner != later.owner)
  }

  /** No claim clashes with an earlier one. */
  ghost predicate Compatible(claims: seq<Claim>) {
    forall i, j | 0 <= i < j < |claims| :: !Clash(claims[i], claims[j])
  }

  /** What the map says about the claims made so far, conflicting or not. */
  ghost predicate Registered(owners: map<string, string>, claims: seq<Claim>) {
    && (forall c <- claims :: c.key in owners)
    && (forall key <- owners :: exists c <- claims :: c.key == key && c.owner == owners[key])
  }

  ghost predicate OwnersAgree(owners: map<string, string>, claims: seq<Claim>) {
    forall c <- claims :: c.key in owners && owners[c.key] == c.owner
  }

  /** Without clashes the map gives every key its claimant. */
  lemma {:induction false} CompatibleOwners(owners: map<string, string>, claims: seq<Claim>)
    requires Registered(owners, claims) && Compatible(claims)
    ensures OwnersAgree(owners, claims)
  {
    forall c <- claims ensures owners[c.key] == c.owner {
      var i :| 0 <= i < |claims| && claims[i] == c;
      var d :| d in claims && d.key == c.key && d.owner == owners[c.key];
      var j :| 0 <= j < |claims| && claims[j] == d;
      assert i < j ==> !Clash(claims[i], claims[j]);
      assert j < i ==> !Clash(claims[j], claims[i]);
    }
  }

  predicate Free(owners: map<string, string>, c: Claim) {
    c.key !in owners || (!c.exclusive && owners[c.key] == c.owner)
  }

  lemma {:induction false} OneMore(owners: map<string, string>, claims: seq<Claim>, c: Claim)
    requires Registered(owners, claims)
    ensures Compatible(claims + [c]) <==> Compatible(claims) && Free(owners, c)
  {
    var all := claims + [c];
    if Compatible(all) {
      forall i, j | 0 <= i < j < |claims| ensures !Clash(claims[i], claims[j]) {
        assert claims[i] == all[i] && claims[j] == all[j];
      }
      if c.key in owners {
        var d :| d in claims && d.key == c.key && d.owner == owners[c.key];
        var i :| 0 <= i < |claims| && claims[i] == d;
        assert !Clash(all[i], all[|claims|]);
      }
    }
    if Compatible(claims) && Free(owners, c) {
      CompatibleOwners(owners, claims);
      forall i, j | 0 <= i < j < |all| ensures !Clash(all[i], all[j]) {
        if j == |claims| {
          assert claims[i] in claims;
        } else {
          assert !Clash(claims[i], claims[j]);
        }
      }
    }
  }

  lemma {:induction false} RegisterOne(owners: map<string, string>, claims: seq<Claim>, c: Claim)
    requires Registered(owners, claims)
    ensures Registered(Claimed(owners, c), claims + [c])
  {
    var after := Claimed(owners, c);
    assert c in claims + [c];
    forall key <- after ensures exists d <- claims + [c] :: d.key == key && d.owner == after[key] {
      if key in owners && after[key] == owners[key] {
        var d :| d in claims && d.key == key && d.owner == owners[key];
        assert d in claims + [c];
      }
    }
  }

  /** The map after one more claim; a clash leaves it as it was. */
  function Claimed(owners: map<string, string>, c: Claim): map<string, string> {
    if Free(owners, c) then owners[c.key := c.owner] else owners
  }

  /** The map after a run of claims, and how many of them clashed. */
  function After(owners: map<string, string>, claims: seq<Claim>): map<string, string> {
    if claims == [] then owners else Claimed(After(owners, claims[..|claims| - 1]), claims[|claims| - 1])
  }

  function Clashes(owners: map<string, string>, claims: seq<Claim>): nat {
    if claims == [] then 0
    else
      var most := claims[..|claims| - 1];
      Clashes(owners, most) + if Free(After(owners, most), claims[|claims| - 1]) then 0 else 1
  }

  lemma {:induction false} SplitLast<T>(s: seq<T>, t: seq<T>)
    requires t != []
    ensures s + t != [] && (s + t)[..|s + t| - 1] == s + t[..|t| - 1] && (s + t)[|s + t| - 1] == t[|t| - 1]
  {
  }

  /** Two runs in a row are one run over all their claims. */
  lemma {:induction false} RunsCompose(owners: map<string, string>, a: seq<Claim>, b: seq<Claim>)
    ensures After(owners, a + b) == After(After(owners, a), b)
    ensures Clashes(owners, a + b) == Clashes(owners, a) + Clashes(After(owners, a), b)
  {
    if b == [] {
      assert a + b == a;
    } else {
      RunsCompose(owners, a, b[..|b| - 1]);
      SplitLast(a, b);
    }
  }

  lemma {:induction false} LastClaim(earlier: seq<Claim>, claims: seq<Claim>)
    requires claims != []
    ensures earlier + claims == earlier + claims[..|claims| - 1] + [claims[|claims| - 1]]
  {
  }

  lemma {:induction false} AfterIsRegistered(owners: map<string, string>, earlier: seq<Claim>, claims: seq<Claim>)
    requires Registered(owners, earlier)
    ensures Registered(After(owners, claims), earlier + claims)
  {
    if claims == [] {
      assert earlier + claims == earlier;
    } else {
      var most, last := claims[..|claims| - 1], claims[|claims| - 1];
      AfterIsRegistered(owners, earlier, most);
      RegisterOne(After(owners, most), earlier + most, last);
      LastClaim(earlier, claims);
    }
  }

  /** A run counts no clash exactly when it keeps the claims compatible. */
  lemma {:induction false} NoClashMeansCompatible(owners: map<string, string>, earlier: seq<Claim>, claims: seq<Claim>)
    requires Registered(owners, earlier)
    ensures Compatible(earlier + claims) <==> Compatible(earlier) && Clashes(owners, claims) == 0
  {
    if claims == [] {
      assert earlier + claims == earlier;
    } else {
      var most, last := claims[..|claims| - 1], claims[|claims| - 1];
      NoClashMeansCompatible(owners, earlier, most);
      AfterIsRegistered(owners, earlier, most);
      OneMore(After(owners, most), earlier + most, last);
      LastClaim(earlier, claims);
    }
  }

  /** Registers the claims in order; every clash is one conflict and leaves the map as it was. */
  method Register(owners: map<string, string>, ghost earlier: seq<Claim>, claims: seq<Claim>)
    returns (after: map<string, string>, conflicts: nat)
    requires Registered(owners, earlier)
    ensures Registered(after, earlier + claims)
    ensures Compatible(earlier + claims) <==> Compatible(earlier) && conflicts == 0
  {
    AfterIsRegistered(owners, earlier, claims);
    NoClashMeansCompatible(owners, earlier, claims);
    after, conflicts := RegisterAll(owners, claims);
  }

  method RegisterAll(owners: map<string, string>, claims: seq<Claim>) returns (after: map<string, string>, conflicts: nat)
    ensures after == After(owners, claims) && conflicts == Clashes(owners, claims)
  {
    after, conflicts := owners, 0;
    for i := 0 to |claims|
      invariant after == After(owners, claims[..i]) && conflicts == Clashes(owners, claims[..i])
    {
      assert claims[..i + 1][..i] == claims[..i];
      if Free(after, claims[i]) {
        after := after[claims[i].key := claims[i].owner];
      } else {
        conflicts := conflicts + 1;
      }
    }
    assert claims[..|claims|] == claims;
  }

  /** One key, one owner. */
  ghost predicate Functional(claims: seq<Claim>) {
    forall c, d | c in claims && d in claims && c.key == d.key :: c.owner == d.owner
  }

  /** Among claims that tolerate their own owner, compatibility does not depend on the order. */
  lemma {:induction false} CompatibleMeansFunctional(claims: seq<Claim>)
    ensures Compatible(claims) ==> Functional(claims)
    ensures (forall c <- claims :: !c.exclusive) ==> (Compatible(claims) <==> Functional(claims))
  {
    if Compatible(claims) {
      forall c, d | c in claims && d in claims && c.key == d.key ensures c.owner == d.owner {
        var i :| 0 <= i < |claims| && claims[i] == c;
        var j :| 0 <= j < |claims| && claims[j] == d;
        assert i < j ==> !Clash(claims[i], claims[j]);
        assert j < i ==> !Clash(claims[j], claims[i]);
      }
    }
  }
}
