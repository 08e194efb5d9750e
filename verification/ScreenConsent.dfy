/** The remembered approvals of screens: bounded, expiring, and faithful to the whole history of
    what the person agreed to (outputConsent.ts). Times are milliseconds. */
module ScreenConsent {
  import opened Basics

  const MAX_GRANTS: nat := 64
  const LIFETIME: nat := 90 * 24 * 60 * 60_000

  datatype Grant = Grant(identity: string, scope: string, at: nat)

  predicate Expired(grant: Grant, now: nat) {
    grant.at > now || now - grant.at > LIFETIME
  }

  function Last(grants: seq<Grant>): Grant
    requires grants != []
  {
    grants[|grants| - 1]
  }

  function Front(grants: seq<Grant>): seq<Grant>
    requires grants != []
  {
    grants[..|grants| - 1]
  }

  function Live(grants: seq<Grant>, now: nat): seq<Grant> {
    if grants == [] then []
    else if Expired(Last(grants), now) then Live(Front(grants), now)
    else Live(Front(grants), now) + [Last(grants)]
  }

  function Newest(grants: seq<Grant>): seq<Grant> {
    if |grants| <= MAX_GRANTS then grants else grants[|grants| - MAX_GRANTS..]
  }

  function Pruned(grants: seq<Grant>, now: nat): seq<Grant> {
    Newest(Live(grants, now))
  }

  function Without(grants: seq<Grant>, identity: string): seq<Grant> {
    if grants == [] then []
    else if Last(grants).identity == identity then Without(Front(grants), identity)
    else Without(Front(grants), identity) + [Last(grants)]
  }

  /** The last grant of an identity. */
  function GrantOf(grants: seq<Grant>, identity: string): Option<Grant> {
    if grants == [] then None
    else if Last(grants).identity == identity then Some(Last(grants))
    else GrantOf(Front(grants), identity)
  }

  /** The other identities granted since the last grant of an identity. */
  function Since(grants: seq<Grant>, identity: string): set<string> {
    if grants == [] || Last(grants).identity == identity then {}
    else Since(Front(grants), identity) + {Last(grants).identity}
  }

  predicate Holds(grants: seq<Grant>, identity: string, scope: string) {
    var grant := GrantOf(grants, identity);
    grant.Some? && grant.value.scope == scope
  }

  /** What the whole history says: the last agreement for the identity was for that scope, is not
      older than its lifetime, and fewer than 64 other identities were agreed to since. */
  predicate AgreedBy(history: seq<Grant>, identity: string, scope: string, now: nat) {
    && Holds(history, identity, scope)
    && now - GrantOf(history, identity).value.at <= LIFETIME
    && |Since(history, identity)| < MAX_GRANTS
  }

  /** The last agreement for the identity is at `k`. */
  predicate LastAt(history: seq<Grant>, identity: string, k: nat) {
    k < |history| && history[k].identity == identity && forall j :: k < j < |history| ==> history[j].identity != identity
  }

  lemma {:induction false} LastAgreement(history: seq<Grant>, identity: string)
    ensures match GrantOf(history, identity)
      case None => forall k :: 0 <= k < |history| ==> history[k].identity != identity
      case Some(grant) => exists k: nat :: LastAt(history, identity, k) && history[k] == grant
    ensures forall k: nat :: LastAt(history, identity, k) ==>
      GrantOf(history, identity) == Some(history[k]) &&
      Since(history, identity) == set j | k < j < |history| :: history[j].identity
  {
    if history != [] {
      var last := |history| - 1;
      LastAgreement(Front(history), identity);
      if history[last].identity == identity {
        assert LastAt(history, identity, last);
      } else {
        if GrantOf(history, identity).Some? {
          var k: nat :| LastAt(Front(history), identity, k) && Front(history)[k] == GrantOf(history, identity).value;
          assert LastAt(history, identity, k);
        }
        forall k: nat | LastAt(history, identity, k) ensures
          GrantOf(history, identity) == Some(history[k]) &&
          Since(history, identity) == set j | k < j < |history| :: history[j].identity
        {
          assert LastAt(Front(history), identity, k);
          assert (set j | k < j < |history| :: history[j].identity)
              == (set j | k < j < last :: Front(history)[j].identity) + {history[last].identity};
        }
      }
    }
  }

  /** The history agrees to a scope when the last agreement for the identity was for that scope, is at most 90 days
      old, and fewer than 64 other identities were agreed to after it. */
  lemma AgreedIs(history: seq<Grant>, identity: string, scope: string, now: nat)
    ensures AgreedBy(history, identity, scope, now) <==> exists k: nat ::
      && LastAt(history, identity, k) && history[k].scope == scope && now - history[k].at <= 90 * 24 * 60 * 60 * 1000
      && |set j | k < j < |history| :: history[j].identity| < 64
  {
    hide GrantOf, Since;
    LastAgreement(history, identity);
    if k: nat :| LastAt(history, identity, k) {
      assert GrantOf(history, identity) == Some(history[k]);
    }
  }

  // The last agreement of every identity, in the order they were made.

  function Latest(history: seq<Grant>): seq<Grant> {
    if history == [] then [] else Without(Latest(Front(history)), Last(history).identity) + [Last(history)]
  }

  ghost predicate Ordered(grants: seq<Grant>) {
    forall i, j :: 0 <= i < j < |grants| ==> grants[i].at <= grants[j].at
  }

  ghost predicate Distinct(grants: seq<Grant>) {
    forall i, j :: 0 <= i < j < |grants| ==> grants[i].identity != grants[j].identity
  }

  ghost predicate By(grants: seq<Grant>, now: nat) {
    forall k :: 0 <= k < |grants| ==> grants[k].at <= now
  }

  lemma FrontLast(grants: seq<Grant>, last: Grant)
    ensures Front(grants + [last]) == grants && Last(grants + [last]) == last
  {
  }

  lemma {:induction false} WithoutNone(grants: seq<Grant>, identity: string)
    requires forall k :: 0 <= k < |grants| ==> grants[k].identity != identity
    ensures Without(grants, identity) == grants
  {
    if grants != [] {
      WithoutNone(Front(grants), identity);
    }
  }

  function Cut(grants: seq<Grant>, place: nat): seq<Grant>
    requires place < |grants|
  {
    grants[..place] + grants[place + 1..]
  }

  lemma {:induction false} WithoutAt(grants: seq<Grant>, place: nat)
    requires Distinct(grants) && place < |grants|
    ensures Without(grants, grants[place].identity) == Cut(grants, place)
  {
    var last := |grants| - 1;
    if place == last {
      WithoutNone(Front(grants), grants[place].identity);
      assert Cut(grants, place) == Front(grants);
    } else {
      WithoutAt(Front(grants), place);
      assert Cut(grants, place) == Cut(Front(grants), place) + [grants[last]];
    }
  }

  /** Where identities differ, taking one out takes out one grant or none. */
  lemma WithoutShape(grants: seq<Grant>, identity: string) returns (place: int)
    requires Distinct(grants)
    ensures -1 <= place < |grants|
    ensures place < 0 ==> Without(grants, identity) == grants && forall k :: 0 <= k < |grants| ==> grants[k].identity != identity
    ensures place >= 0 ==> grants[place].identity == identity && Without(grants, identity) == Cut(grants, place)
  {
    if k :| 0 <= k < |grants| && grants[k].identity == identity {
      place := k;
      WithoutAt(grants, k);
    } else {
      place := -1;
      WithoutNone(grants, identity);
    }
  }

  lemma AppendKeepsOrder(grants: seq<Grant>, last: Grant)
    requires Ordered(grants) && By(grants, last.at)
    ensures Ordered(grants + [last]) && By(grants + [last], last.at)
  {
  }

  lemma CutKeeps(grants: seq<Grant>, place: nat, now: nat)
    requires Ordered(grants) && By(grants, now) && place < |grants|
    ensures Ordered(Cut(grants, place)) && By(Cut(grants, place), now)
  {
  }

  lemma AppendDistinct(grants: seq<Grant>, place: int, last: Grant)
    requires Distinct(grants) && -1 <= place < |grants|
    requires forall k :: 0 <= k < |grants| && grants[k].identity == last.identity ==> k == place
    ensures Distinct((if place < 0 then grants else Cut(grants, place)) + [last])
  {
  }

  /** A new agreement at the end of the others. */
  lemma AddKeepsOrder(grants: seq<Grant>, last: Grant)
    requires Ordered(grants) && Distinct(grants) && By(grants, last.at)
    ensures var added := Without(grants, last.identity) + [last];
      Ordered(added) && Distinct(added) && By(added, last.at)
  {
    var place := WithoutShape(grants, last.identity);
    assert forall k :: 0 <= k < |grants| && grants[k].identity == last.identity ==> k == place;
    AppendDistinct(grants, place, last);
    hide Ordered, Distinct, By, Cut, Without;
    if place >= 0 {
      CutKeeps(grants, place, last.at);
    }
    AppendKeepsOrder(Without(grants, last.identity), last);
  }

  lemma {:induction false} WithoutFinds(grants: seq<Grant>, other: string, identity: string)
    requires identity != other
    ensures GrantOf(Without(grants, other), identity) == GrantOf(grants, identity)
    ensures Since(Without(grants, other), identity) == Since(grants, identity) - {other}
  {
    if grants != [] {
      WithoutFinds(Front(grants), other, identity);
      FrontLast(Without(Front(grants), other), Last(grants));
    }
  }

  lemma {:induction false} LatestIs(history: seq<Grant>, now: nat)
    requires Ordered(history) && By(history, now)
    ensures Ordered(Latest(history)) && By(Latest(history), now) && Distinct(Latest(history))
    ensures history != [] ==> By(Latest(history), Last(history).at)
  {
    if history != [] {
      var front, last := Front(history), Last(history);
      LatestIs(front, last.at);
      AddKeepsOrder(Latest(front), last);
    }
  }

  /** The latest agreements say of an identity what the history does. */
  lemma {:induction false} LatestFinds(history: seq<Grant>, identity: string)
    ensures GrantOf(Latest(history), identity) == GrantOf(history, identity)
    ensures Since(Latest(history), identity) == Since(history, identity)
  {
    if history != [] {
      var last := Last(history);
      var rest := Without(Latest(Front(history)), last.identity);
      LatestFinds(Front(history), identity);
      FrontLast(rest, last);
      if last.identity != identity {
        WithoutFinds(Latest(Front(history)), last.identity, identity);
      }
    }
  }

  /** Where identities differ, a grant is found at its place, with one identity for each later place. */
  lemma {:induction false} FindsAt(grants: seq<Grant>, k: nat)
    requires Distinct(grants) && k < |grants|
    ensures GrantOf(grants, grants[k].identity) == Some(grants[k])
    ensures |Since(grants, grants[k].identity)| == |grants| - 1 - k
    ensures forall id :: id in Since(grants, grants[k].identity) ==> exists j :: k < j < |grants| && grants[j].identity == id
  {
    if k < |grants| - 1 {
      var front, last := Front(grants), Last(grants);
      FindsAt(front, k);
      assert last.identity !in Since(front, grants[k].identity);
      assert grants[|grants| - 1] == last;
    }
  }

  lemma {:induction false} FoundSomewhere(grants: seq<Grant>, identity: string) returns (k: nat)
    requires GrantOf(grants, identity).Some?
    ensures k < |grants| && grants[k] == GrantOf(grants, identity).value && grants[k].identity == identity
  {
    k := |grants| - 1;
    if Last(grants).identity != identity {
      k := FoundSomewhere(Front(grants), identity);
    }
  }

  /** In order of time the expired grants are the first. */
  lemma {:induction false} LiveIsSuffix(grants: seq<Grant>, now: nat) returns (dropped: nat)
    requires Ordered(grants) && By(grants, now)
    ensures dropped <= |grants| && Live(grants, now) == grants[dropped..]
    ensures forall k :: 0 <= k < |grants| ==> (Expired(grants[k], now) <==> k < dropped)
  {
    dropped := 0;
    if grants != [] {
      dropped := LiveIsSuffix(Front(grants), now);
      if Expired(Last(grants), now) {
        dropped := |grants|;
        assert Live(Front(grants), now) == [];
      } else {
        assert grants[dropped..] == Front(grants)[dropped..] + [Last(grants)];
      }
    }
  }

  /** The store holds the end of the latest agreements; each one before is expired or has had 64
      others after it. */
  ghost predicate Refines(grants: seq<Grant>, latest: seq<Grant>, now: nat) {
    exists d: nat :: Keeps(grants, latest, now, d)
  }

  ghost predicate Keeps(grants: seq<Grant>, latest: seq<Grant>, now: nat, d: nat) {
    && d <= |latest| && grants == latest[d..]
    && forall k :: 0 <= k < d ==> Expired(latest[k], now) || |latest| - k > MAX_GRANTS
  }

  lemma LiveKeeps(grants: seq<Grant>, latest: seq<Grant>, then_: nat, now: nat, d: nat) returns (e: nat)
    requires Keeps(grants, latest, then_, d) && then_ <= now && Ordered(latest) && By(latest, then_)
    ensures Keeps(Live(grants, now), latest, now, e)
    ensures forall k :: 0 <= k < |Live(grants, now)| ==> !Expired(Live(grants, now)[k], now)
  {
    var dropped := LiveIsSuffix(grants, now);
    e := d + dropped;
    assert grants[dropped..] == latest[e..];
    forall k | 0 <= k < e ensures Expired(latest[k], now) || |latest| - k > MAX_GRANTS {
      if k >= d {
        assert latest[k] == grants[k - d];
      }
    }
  }

  lemma NewestKeeps(grants: seq<Grant>, latest: seq<Grant>, now: nat, d: nat) returns (e: nat)
    requires Keeps(grants, latest, now, d)
    ensures Keeps(Newest(grants), latest, now, e)
  {
    e := if |grants| <= MAX_GRANTS then d else |latest| - MAX_GRANTS;
    assert Newest(grants) == latest[e..];
  }

  lemma PrunedRefines(grants: seq<Grant>, latest: seq<Grant>, then_: nat, now: nat)
    requires Refines(grants, latest, then_) && then_ <= now && Ordered(latest) && By(latest, then_)
    ensures Refines(Pruned(grants, now), latest, now) && |Pruned(grants, now)| <= MAX_GRANTS
    ensures forall k :: 0 <= k < |Pruned(grants, now)| ==> !Expired(Pruned(grants, now)[k], now)
  {
    hide Live, Keeps;
    var d: nat :| Keeps(grants, latest, then_, d);
    var e := LiveKeeps(grants, latest, then_, now, d);
    var f := NewestKeeps(Live(grants, now), latest, now, e);
  }

  lemma SuffixDistinct(latest: seq<Grant>, d: nat)
    requires Distinct(latest) && d <= |latest|
    ensures Distinct(latest[d..])
  {
  }

  /** The end of a list without one identity is the end without it. */
  lemma WithoutSuffix(latest: seq<Grant>, d: nat, identity: string) returns (e: nat)
    requires Distinct(latest) && d <= |latest|
    ensures e <= d && e <= |Without(latest, identity)| && Without(latest[d..], identity) == Without(latest, identity)[e..]
    ensures |latest| <= |Without(latest, identity)| + 1
    ensures forall k :: 0 <= k < e ==> Without(latest, identity)[k] == latest[k] || (e < d && Without(latest, identity)[k] == latest[k + 1])
  {
    hide Without;
    var grants := latest[d..];
    SuffixDistinct(latest, d);
    var p := WithoutShape(latest, identity);
    e := d;
    if p >= d {
      assert grants[p - d] == latest[p];
      WithoutAt(grants, p - d);
      assert Cut(latest, p)[d..] == Cut(grants, p - d);
    } else {
      assert forall k :: 0 <= k < |grants| ==> grants[k] == latest[k + d];
      WithoutNone(grants, identity);
      if p >= 0 {
        e := d - 1;
        assert Cut(latest, p)[e..] == grants;
      }
    }
  }

  lemma AgreedRefines(grants: seq<Grant>, latest: seq<Grant>, grant: Grant, then_: nat)
    requires Refines(grants, latest, then_) && then_ <= grant.at && Distinct(latest) && By(latest, then_)
    ensures Refines(Without(grants, grant.identity) + [grant], Without(latest, grant.identity) + [grant], grant.at)
  {
    hide Without, Distinct;
    var d: nat :| Keeps(grants, latest, then_, d);
    var rest := Without(latest, grant.identity);
    var e := WithoutSuffix(latest, d, grant.identity);
    var latest' := rest + [grant];
    assert rest[e..] + [grant] == latest'[e..];
    forall k | 0 <= k < e ensures Expired(latest'[k], grant.at) || |latest'| - k > MAX_GRANTS {
      var j := if rest[k] == latest[k] then k else k + 1;
      assert latest'[k] == rest[k] == latest[j];
      assert Expired(latest[j], then_) || |latest| - j > MAX_GRANTS;
    }
    assert Keeps(Without(grants, grant.identity) + [grant], latest', grant.at, e);
  }

  lemma PlaceIsOne(grants: seq<Grant>, identity: string, k: nat)
    requires Distinct(grants) && k < |grants| && grants[k].identity == identity
    ensures GrantOf(grants, identity) == Some(grants[k]) && |Since(grants, identity)| == |grants| - 1 - k
  {
    FindsAt(grants, k);
  }

  lemma NotHeld(grants: seq<Grant>, identity: string)
    requires forall k :: 0 <= k < |grants| ==> grants[k].identity != identity
    ensures GrantOf(grants, identity).None?
  {
    if GrantOf(grants, identity).Some? {
      var k := FoundSomewhere(grants, identity);
    }
  }

  /** What a pruned store holds of an identity is what the history agrees to. */
  lemma StoreAgrees(grants: seq<Grant>, history: seq<Grant>, now: nat, identity: string, scope: string)
    requires Refines(grants, Latest(history), now) && |grants| <= MAX_GRANTS
    requires forall k :: 0 <= k < |grants| ==> !Expired(grants[k], now)
    requires Ordered(history) && By(history, now)
    ensures Holds(grants, identity, scope) <==> AgreedBy(history, identity, scope, now)
  {
    hide GrantOf, Since, Latest, Ordered;
    var latest := Latest(history);
    LatestIs(history, now);
    LatestFinds(history, identity);
    var d: nat :| Keeps(grants, latest, now, d);
    if k :| 0 <= k < |latest| && latest[k].identity == identity {
      PlaceIsOne(latest, identity, k);
      if k >= d {
        SuffixDistinct(latest, d);
        assert grants[k - d] == latest[k];
        PlaceIsOne(grants, identity, k - d);
      } else {
        assert forall j :: 0 <= j < |grants| ==> grants[j] == latest[j + d];
        NotHeld(grants, identity);
      }
    } else {
      NotHeld(latest, identity);
      assert forall j :: 0 <= j < |grants| ==> grants[j] == latest[j + d];
      NotHeld(grants, identity);
    }
  }

  lemma LaterIs(history: seq<Grant>, then_: nat, now: nat)
    requires By(history, then_) && then_ <= now
    ensures By(history, now)
  {
  }

  lemma NoneLive(now: nat)
    ensures Live([], now) == []
  {
  }

  lemma LiveNext(grants: seq<Grant>, last: Grant, now: nat)
    ensures Live(grants + [last], now) == if Expired(last, now) then Live(grants, now) else Live(grants, now) + [last]
  {
    FrontLast(grants, last);
  }

  lemma HistoryGrows(history: seq<Grant>, grant: Grant, clock: nat)
    requires Ordered(history) && By(history, clock) && clock <= grant.at
    ensures Ordered(history + [grant]) && By(history + [grant], grant.at)
    ensures Latest(history + [grant]) == Without(Latest(history), grant.identity) + [grant]
  {
    FrontLast(history, grant);
  }

  class Store {
    var grants: seq<Grant>
    var loaded: bool
    /** Everything agreed to, and the time of the last call. */
    ghost var history: seq<Grant>
    ghost var clock: nat

    ghost predicate Valid()
      reads this
    {
      && Ordered(history) && By(history, clock)
      && Refines(grants, Latest(history), clock)
    }

    constructor ()
      ensures Valid() && history == [] && clock == 0
    {
      grants, loaded, history, clock := [], false, [], 0;
      new;
      assert Keeps([], [], 0, 0);
    }

    method Prune(now: nat)
      requires Valid() && clock <= now
      modifies this`grants, this`clock
      ensures Valid() && clock == now
      ensures grants == Pruned(old(grants), now) && |grants| <= MAX_GRANTS
      ensures forall k :: 0 <= k < |grants| ==> !Expired(grants[k], now)
    {
      hide Live, Refines, Latest, Ordered, By, Distinct;
      LatestIs(history, clock);
      LaterIs(history, clock, now);
      PrunedRefines(grants, Latest(history), clock, now);
      NoneLive(now);
      var live := [];
      for at := 0 to |grants|
        invariant grants == old(grants) && live == Live(grants[..at], now)
      {
        LiveNext(grants[..at], grants[at], now);
        assert grants[..at + 1] == grants[..at] + [grants[at]];
        if !Expired(grants[at], now) {
          live := live + [grants[at]];
        }
      }
      assert grants[..|grants|] == grants;
      grants := live;
      while |grants| > MAX_GRANTS
        invariant Newest(grants) == Newest(live)
        decreases |grants|
      {
        grants := grants[1..];
      }
      clock := now;
    }

    /** The store is empty when the sitting starts: what was saved is not part of this model. */
    method Load()
      modifies this`loaded
    {
      loaded := true;
    }

    method ScreenAgreed(identity: string, scope: string, now: nat) returns (agreed: bool)
      requires Valid() && clock <= now
      modifies this
      ensures Valid() && clock == now && history == old(history)
      ensures agreed == AgreedBy(history, identity, scope, now)
    {
      hide Refines, Latest, Ordered, By, AgreedBy, Holds;
      Load();
      Prune(now);
      StoreAgrees(grants, history, now, identity, scope);
      return Holds(grants, identity, scope);
    }

    method AgreeScreen(identity: string, scope: string, now: nat)
      requires Valid() && clock <= now
      modifies this
      ensures Valid() && clock == now && history == old(history) + [Grant(identity, scope, now)]
    {
      hide Refines, Latest, Ordered, By, Distinct, Without;
      Load();
      var grant := Grant(identity, scope, now);
      LatestIs(history, clock);
      AgreedRefines(grants, Latest(history), grant, clock);
      HistoryGrows(history, grant, clock);
      grants := Without(grants, identity) + [grant];
      history := history + [grant];
      clock := now;
      Prune(now);
    }
  }
}
