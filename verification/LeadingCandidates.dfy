/**
  The leading-candidates cache of the block store: the best NUM_DELEGATES /
  TERM_LENGTH candidates, kept beside the full candidacy table together with a
  remembered minimum.
 */
module LeadingCandidates {
  import opened Collections

  type Account = nat

  /** The part of CandidateInfo that ranks a candidate, and the rest of the record. */
  datatype Info = Info(votes: nat, stake: nat, rest: nat)

  datatype Entry = Entry(account: Account, info: Info)

  /** The digest of the delegate record built from an account, its votes and its stake. */
  type Digest = (Account, nat, nat) -> nat

  const LEADING: nat := 32 / 4

  const NOBODY := Entry(0, Info(0, 0, 0))

  /** EpochVotingManager::IsGreater on the delegates built from two candidates. */
  predicate Greater(digest: Digest, x: Entry, y: Entry)
  {
    if x.info.votes != y.info.votes then x.info.votes > y.info.votes
    else if x.info.stake != y.info.stake then x.info.stake > y.info.stake
    else digest(x.account, x.info.votes, x.info.stake) > digest(y.account, y.info.votes, y.info.stake)
  }

  /** Different delegates with the same votes and stake have different digests. */
  ghost predicate CollisionFree(digest: Digest)
  {
    forall a, b, v, s :: a != b ==> digest(a, v, s) != digest(b, v, s)
  }

  function At(m: map<Account, Info>, a: Account): Entry
    requires a in m
  {
    Entry(a, m[a])
  }

  lemma GreaterTrans(digest: Digest, x: Entry, y: Entry, z: Entry)
    requires Greater(digest, x, y) && Greater(digest, y, z)
    ensures Greater(digest, x, z)
  {
  }

  lemma GreaterTotal(digest: Digest, x: Entry, y: Entry)
    requires CollisionFree(digest) && x.account != y.account
    ensures Greater(digest, x, y) <==> !Greater(digest, y, x)
  {
  }

  // ---------- the store as a value ----------

  datatype Store = Store(candidacy: map<Account, Info>, leading: map<Account, Info>, size: nat, min: Entry)

  /** `e` is the smallest entry of `m`. */
  ghost predicate IsMin(digest: Digest, m: map<Account, Info>, e: Entry)
  {
    e.account in m && m[e.account] == e.info
    && forall a :: a in m && a != e.account ==> Greater(digest, At(m, a), e)
  }

  /** The cache holds current entries, at most LEADING of them, all of them if there
      are not more, and otherwise LEADING that beat every other candidate. */
  ghost predicate IsTop(digest: Digest, candidacy: map<Account, Info>, leading: map<Account, Info>)
  {
    && leading.Keys <= candidacy.Keys
    && (forall a :: a in leading ==> leading[a] == candidacy[a])
    && |leading.Keys| <= LEADING
    && (leading.Keys == candidacy.Keys || |leading.Keys| == LEADING)
    && forall a, b :: a in leading && b in candidacy && b !in leading ==>
         Greater(digest, At(leading, a), At(candidacy, b))
  }

  /** An exact cache holds eight candidates, or all if there are fewer. */
  lemma TopSize(digest: Digest, candidacy: map<Account, Info>, leading: map<Account, Info>)
    requires IsTop(digest, candidacy, leading)
    ensures |leading.Keys| == if |candidacy.Keys| <= 8 then |candidacy.Keys| else 8
  {
    SubsetSize(leading.Keys, candidacy.Keys);
    if leading.Keys != candidacy.Keys {
      var b :| b in candidacy.Keys && b !in leading.Keys;
      SubsetSize(leading.Keys + {b}, candidacy.Keys);
    }
  }

  /** No candidate outside the cache has more votes than one inside, nor as many votes and more stake, nor as much of
      both and a larger digest. */
  lemma TopByVotes(digest: Digest, candidacy: map<Account, Info>, leading: map<Account, Info>, a: Account, b: Account)
    requires IsTop(digest, candidacy, leading) && a in leading && b in candidacy && b !in leading
    ensures leading[a].votes >= candidacy[b].votes
    ensures leading[a].votes == candidacy[b].votes ==> leading[a].stake >= candidacy[b].stake
    ensures leading[a].votes == candidacy[b].votes && leading[a].stake == candidacy[b].stake ==>
      digest(a, leading[a].votes, leading[a].stake) > digest(b, candidacy[b].votes, candidacy[b].stake)
  {
    assert Greater(digest, At(leading, a), At(candidacy, b));
  }

  /** The remembered minimum of a full cache has the fewest votes in it, the least stake among these, and the smallest
      digest among those. */
  lemma MinByVotes(digest: Digest, leading: map<Account, Info>, min: Entry, a: Account)
    requires IsMin(digest, leading, min) && a in leading
    ensures min.info.votes <= leading[a].votes
    ensures min.info.votes == leading[a].votes ==> min.info.stake <= leading[a].stake
    ensures min.info.votes == leading[a].votes && min.info.stake == leading[a].stake ==>
      digest(min.account, min.info.votes, min.info.stake) <= digest(a, leading[a].votes, leading[a].stake)
  {
    if a != min.account { assert Greater(digest, At(leading, a), min); }
  }

  /** Conversely, entries that are all current and ranked so are the top. */
  lemma RankedIsTop(digest: Digest, candidacy: map<Account, Info>, leading: map<Account, Info>)
    requires leading.Keys <= candidacy.Keys && (forall a :: a in leading ==> leading[a] == candidacy[a])
    requires |leading.Keys| <= LEADING && (leading.Keys == candidacy.Keys || |leading.Keys| == LEADING)
    requires forall a, b :: a in leading && b in candidacy && b !in leading ==>
      || leading[a].votes > candidacy[b].votes
      || (leading[a].votes == candidacy[b].votes && leading[a].stake > candidacy[b].stake)
      || (leading[a].votes == candidacy[b].votes && leading[a].stake == candidacy[b].stake
          && digest(a, leading[a].votes, leading[a].stake) > digest(b, candidacy[b].votes, candidacy[b].stake))
    ensures IsTop(digest, candidacy, leading)
  {
  }

  ghost predicate Valid(digest: Digest, s: Store)
  {
    IsTop(digest, s.candidacy, s.leading) && Counted(digest, s)
  }

  /** The remembered size is right, and so is the remembered minimum when the cache is full. */
  ghost predicate Counted(digest: Digest, s: Store)
  {
    s.size == |s.leading.Keys| && (s.size == LEADING ==> IsMin(digest, s.leading, s.min))
  }

  /** sync_leading_candidates: the cache is counted and its minimum looked up again. */
  ghost predicate Synced(digest: Digest, s: Store, s': Store)
  {
    && s'.candidacy == s.candidacy && s'.leading == s.leading && s'.size == |s.leading.Keys|
    && (if s.leading.Keys == {} then s'.min == NOBODY else IsMin(digest, s.leading, s'.min))
  }

  /** candidate_put followed by update_leading_candidates. */
  ghost predicate Put(digest: Digest, s: Store, e: Entry, s': Store)
  {
    var base := s.(candidacy := s.candidacy[e.account := e.info]);
    if e.account in s.leading then
      var t := base.(leading := s.leading[e.account := e.info]);
      if s.min.account == e.account && s.size == LEADING then Synced(digest, t, s') else s' == t
    else if s.size == LEADING then
      if Greater(digest, e, s.min) then
        Synced(digest, base.(leading := (s.leading - {s.min.account})[e.account := e.info]), s')
      else s' == base
    else
      var t := base.(leading := s.leading[e.account := e.info], size := s.size + 1);
      if t.size == LEADING then Synced(digest, t, s') else s' == t
  }

  // ---------- what a put keeps ----------

  lemma MinUnique(digest: Digest, m: map<Account, Info>, d: Entry, e: Entry)
    requires CollisionFree(digest) && IsMin(digest, m, d) && IsMin(digest, m, e)
    ensures d == e
  {
    if d.account != e.account {
      assert At(m, d.account) == d && At(m, e.account) == e;
      GreaterTotal(digest, d, e);
    }
  }

  /** Two caches of the same candidates that are both the top are the same. */
  lemma TopUnique(digest: Digest, candidacy: map<Account, Info>, l: map<Account, Info>, m: map<Account, Info>)
    requires CollisionFree(digest) && IsTop(digest, candidacy, l) && IsTop(digest, candidacy, m)
    ensures l == m
  {
    if exists a :: a in l.Keys && a !in m.Keys {
      var a :| a in l.Keys && a !in m.Keys;
      OtherMember(l.Keys, m.Keys, a, candidacy.Keys);
      var b :| b in m.Keys && b !in l.Keys;
      assert Greater(digest, At(l, a), At(candidacy, b));
      assert Greater(digest, At(m, b), At(candidacy, a));
      GreaterTotal(digest, At(l, a), At(m, b));
    } else if exists b :: b in m.Keys && b !in l.Keys {
      var b :| b in m.Keys && b !in l.Keys;
      OtherMember(m.Keys, l.Keys, b, candidacy.Keys);
      assert false;
    }
    assert l.Keys == m.Keys;
  }

  lemma OtherMember(x: set<Account>, y: set<Account>, a: Account, all: set<Account>)
    requires a in x && a !in y && x <= all && y <= all && |x| <= LEADING && (y == all || |y| == LEADING)
    ensures exists b :: b in y && b !in x
  {
    if y <= x {
      SubsetSize(y, x - {a});
    } else {
      var b :| b in y && b !in x;
    }
  }

  /** The puts after which the cache is no longer right: the account is in a full
      cache and its new rank is below the remembered minimum, or it is itself the
      minimum and falls below a candidate outside the cache. */
  ghost predicate Demotes(digest: Digest, s: Store, e: Entry)
  {
    && e.account in s.leading && s.size == LEADING
    && (if s.min.account == e.account
        then exists b :: b in s.candidacy && b !in s.leading && Greater(digest, At(s.candidacy, b), e)
        else Greater(digest, s.min, e))
  }

  lemma PutKnown(digest: Digest, s: Store, e: Entry, s': Store)
    requires CollisionFree(digest) && Valid(digest, s) && Put(digest, s, e, s') && e.account in s.leading
    requires s.size == LEADING && s.min.account != e.account
    ensures Valid(digest, s') <==> !Greater(digest, s.min, e)
  {
    assert s'.leading.Keys == s.leading.Keys && s'.candidacy.Keys == s.candidacy.Keys;
    GreaterTotal(digest, s.min, e);
    assert At(s.leading, s.min.account) == s.min;
    if Greater(digest, e, s.min) {
      forall a, b | a in s'.leading && b in s'.candidacy && b !in s'.leading
        ensures Greater(digest, At(s'.leading, a), At(s'.candidacy, b))
      {
        assert Greater(digest, s.min, At(s.candidacy, b));
        if a == e.account { GreaterTrans(digest, e, s.min, At(s.candidacy, b)); }
        else { assert Greater(digest, At(s.leading, a), At(s.candidacy, b)); }
      }
      forall a | a in s'.leading && a != s.min.account
        ensures Greater(digest, At(s'.leading, a), s.min)
      {
        if a != e.account { assert Greater(digest, At(s.leading, a), s.min); }
      }
    } else {
      assert At(s'.leading, e.account) == e;
    }
  }

  lemma PutMinimum(digest: Digest, s: Store, e: Entry, s': Store)
    requires CollisionFree(digest) && Valid(digest, s) && Put(digest, s, e, s') && e.account in s.leading
    requires s.size == LEADING && s.min.account == e.account
    ensures Valid(digest, s') <==> !Demotes(digest, s, e)
  {
    assert s'.leading.Keys == s.leading.Keys && s'.candidacy.Keys == s.candidacy.Keys;
    assert At(s'.leading, e.account) == e;
    if Demotes(digest, s, e) {
      var b :| b in s.candidacy && b !in s.leading && Greater(digest, At(s.candidacy, b), e);
      assert At(s'.candidacy, b) == At(s.candidacy, b);
      GreaterTotal(digest, At(s.candidacy, b), e);
    } else {
      forall a, b | a in s'.leading && b in s'.candidacy && b !in s'.leading
        ensures Greater(digest, At(s'.leading, a), At(s'.candidacy, b))
      {
        assert At(s'.candidacy, b) == At(s.candidacy, b);
        if a == e.account { GreaterTotal(digest, e, At(s.candidacy, b)); }
        else { assert Greater(digest, At(s.leading, a), At(s.candidacy, b)); }
      }
    }
  }

  lemma PutReplaces(digest: Digest, s: Store, e: Entry, s': Store)
    requires CollisionFree(digest) && Valid(digest, s) && Put(digest, s, e, s') && e.account !in s.leading
    requires s.size == LEADING && Greater(digest, e, s.min)
    ensures Valid(digest, s')
  {
    var kept := s.leading.Keys - {s.min.account};
    assert s'.leading.Keys == kept + {e.account};
    assert |kept| == LEADING - 1;
    assert s'.candidacy.Keys == s.candidacy.Keys + {e.account};
    assert At(s.leading, s.min.account) == s.min;
    forall a, b | a in s'.leading && b in s'.candidacy && b !in s'.leading
      ensures Greater(digest, At(s'.leading, a), At(s'.candidacy, b))
    {
      assert At(s'.candidacy, b) == At(s.candidacy, b);
      if b != s.min.account {
        assert Greater(digest, s.min, At(s.candidacy, b));
        if a == e.account { GreaterTrans(digest, e, s.min, At(s.candidacy, b)); }
        else { assert Greater(digest, At(s.leading, a), At(s.candidacy, b)); }
      } else {
        assert At(s.candidacy, b) == s.min;
        if a != e.account { assert Greater(digest, At(s.leading, a), s.min); }
      }
    }
  }

  lemma PutStaysOut(digest: Digest, s: Store, e: Entry, s': Store)
    requires CollisionFree(digest) && Valid(digest, s) && Put(digest, s, e, s') && e.account !in s.leading
    requires s.size == LEADING && !Greater(digest, e, s.min)
    ensures Valid(digest, s')
  {
    GreaterTotal(digest, e, s.min);
    forall a, b | a in s'.leading && b in s'.candidacy && b !in s'.leading
      ensures Greater(digest, At(s'.leading, a), At(s'.candidacy, b))
    {
      if b == e.account {
        assert At(s'.candidacy, b) == e;
        if a != s.min.account {
          assert Greater(digest, At(s.leading, a), s.min);
          GreaterTrans(digest, At(s.leading, a), s.min, e);
        }
      } else {
        assert Greater(digest, At(s.leading, a), At(s.candidacy, b));
      }
    }
  }

  lemma PutRoomLeft(digest: Digest, s: Store, e: Entry, s': Store)
    requires CollisionFree(digest) && Valid(digest, s) && Put(digest, s, e, s') && s.size != LEADING
    ensures Valid(digest, s')
  {
    assert s.leading.Keys == s.candidacy.Keys;
    assert s'.leading.Keys == s.leading.Keys + {e.account};
    assert s'.candidacy.Keys == s.candidacy.Keys + {e.account};
  }

  /** A put keeps the cache exact, and its minimum known, if and only if it does not demote. */
  lemma PutKeepsTop(digest: Digest, s: Store, e: Entry, s': Store)
    requires CollisionFree(digest) && Valid(digest, s) && Put(digest, s, e, s')
    ensures Valid(digest, s') <==> !Demotes(digest, s, e)
  {
    if s.size != LEADING {
      PutRoomLeft(digest, s, e, s');
    } else if e.account in s.leading {
      if s.min.account == e.account { PutMinimum(digest, s, e, s'); } else { PutKnown(digest, s, e, s'); }
    } else if Greater(digest, e, s.min) {
      PutReplaces(digest, s, e, s');
    } else {
      PutStaysOut(digest, s, e, s');
    }
  }

  /** The account's rank does not fall. */
  ghost predicate KeepsRank(digest: Digest, s: Store, e: Entry)
  {
    e.account in s.candidacy ==> !Greater(digest, At(s.candidacy, e.account), e)
  }

  lemma RankKeptNotDemoted(digest: Digest, s: Store, e: Entry)
    requires CollisionFree(digest) && Valid(digest, s) && KeepsRank(digest, s, e)
    ensures !Demotes(digest, s, e)
  {
    if e.account in s.leading && s.size == LEADING {
      var was := At(s.leading, e.account);
      assert was == At(s.candidacy, e.account);
      if s.min.account != e.account {
        assert Greater(digest, was, s.min);
        if Greater(digest, s.min, e) { GreaterTrans(digest, was, s.min, e); }
      } else {
        forall b | b in s.candidacy && b !in s.leading
          ensures !Greater(digest, At(s.candidacy, b), e)
        {
          assert Greater(digest, was, At(s.candidacy, b));
          if Greater(digest, At(s.candidacy, b), e) { GreaterTrans(digest, was, At(s.candidacy, b), e); }
        }
      }
    }
  }

  /** A run: each state follows from the one before by a put or by a startup sync. */
  datatype Event = Placed(entry: Entry) | Restarted

  ghost predicate Follows(digest: Digest, s: Store, ev: Event, s': Store)
  {
    match ev
    case Placed(e) => Put(digest, s, e, s')
    case Restarted => Synced(digest, s, s')
  }

  ghost predicate Run(digest: Digest, states: seq<Store>, events: seq<Event>)
  {
    && |states| == |events| + 1
    && forall i :: 0 <= i < |events| ==> Follows(digest, states[i], events[i], states[i + 1])
  }

  ghost predicate RunKeepsRanks(digest: Digest, states: seq<Store>, events: seq<Event>)
  {
    |states| == |events| + 1
    && forall i :: 0 <= i < |events| && events[i].Placed? ==> KeepsRank(digest, states[i], events[i].entry)
  }

  lemma SyncKeeps(digest: Digest, s: Store, s': Store)
    requires CollisionFree(digest) && Synced(digest, s, s')
    ensures Valid(digest, s) ==> Valid(digest, s')
    ensures SameOutcomes(s, s') <==> Counted(digest, s)
  {
    if s.size == LEADING && Counted(digest, s) {
      MinUnique(digest, s.leading, s.min, s'.min);
    }
  }

  /** Over every run in which no put lowers a rank, every state holds the exact top. */
  lemma {:induction false} RunsStayExact(digest: Digest, states: seq<Store>, events: seq<Event>, n: nat)
    requires CollisionFree(digest) && Run(digest, states, events) && RunKeepsRanks(digest, states, events)
    requires Valid(digest, states[0]) && n < |states|
    ensures Valid(digest, states[n])
  {
    if n == 0 {
    } else {
      RunsStayExact(digest, states, events, n - 1);
      var s, s', ev := states[n - 1], states[n], events[n - 1];
      assert Follows(digest, s, ev, s');
      match ev {
        case Placed(e) =>
          RankKeptNotDemoted(digest, s, e);
          PutKeepsTop(digest, s, e, s');
        case Restarted =>
          SyncKeeps(digest, s, s');
      }
    }
  }

  // ---------- an extra sync changes nothing later ----------

  /** Equal but for a minimum that nobody reads while the cache is not full. */
  ghost predicate SameOutcomes(s: Store, t: Store)
  {
    s.candidacy == t.candidacy && s.leading == t.leading && s.size == t.size && (s.size == LEADING ==> s.min == t.min)
  }

  lemma SyncSame(digest: Digest, s: Store, t: Store, s': Store, t': Store)
    requires CollisionFree(digest) && s.leading == t.leading && s.candidacy == t.candidacy
    requires Synced(digest, s, s') && Synced(digest, t, t')
    ensures s' == t'
  {
    if s.leading.Keys != {} { MinUnique(digest, s.leading, s'.min, t'.min); }
  }

  lemma PutSameOutcomes(digest: Digest, s: Store, t: Store, e: Entry, s': Store, t': Store)
    requires CollisionFree(digest) && SameOutcomes(s, t) && Put(digest, s, e, s') && Put(digest, t, e, t')
    ensures SameOutcomes(s', t')
  {
    if s.size == LEADING {
      assert s == t;
      PutDeterministic(digest, s, e, s', t');
    } else if e.account !in s.leading && s.size + 1 == LEADING {
      var l := s.leading[e.account := e.info];
      var c := s.candidacy[e.account := e.info];
      SyncSame(digest, s.(candidacy := c, leading := l, size := s.size + 1),
          t.(candidacy := c, leading := l, size := t.size + 1), s', t');
    }
  }

  lemma PutDeterministic(digest: Digest, s: Store, e: Entry, s': Store, t': Store)
    requires CollisionFree(digest) && s.size == LEADING && Put(digest, s, e, s') && Put(digest, s, e, t')
    ensures s' == t'
  {
    var base := s.(candidacy := s.candidacy[e.account := e.info]);
    if e.account in s.leading {
      var t := base.(leading := s.leading[e.account := e.info]);
      if s.min.account == e.account { SyncSame(digest, t, t, s', t'); }
    } else if Greater(digest, e, s.min) {
      var t := base.(leading := (s.leading - {s.min.account})[e.account := e.info]);
      SyncSame(digest, t, t, s', t');
    }
  }

  /** Two runs over the same puts, the second after one more sync at the start, agree at every step on the
      cache, its size and, when full, its minimum, if what is remembered at the start is right.  Whether
      the cache is the top does not matter. */
  lemma {:induction false} ExtraSyncHarmless(digest: Digest, s: seq<Store>, t: seq<Store>, events: seq<Event>, n: nat)
    requires CollisionFree(digest) && Run(digest, s, events) && Run(digest, t, events) && n < |s|
    requires Counted(digest, s[0]) && Synced(digest, s[0], t[0])
    ensures SameOutcomes(s[n], t[n])
  {
    if n == 0 {
      SyncKeeps(digest, s[0], t[0]);
    } else {
      ExtraSyncHarmless(digest, s, t, events, n - 1);
      assert Follows(digest, s[n - 1], events[n - 1], s[n]) && Follows(digest, t[n - 1], events[n - 1], t[n]);
      match events[n - 1] {
        case Placed(e) => PutSameOutcomes(digest, s[n - 1], t[n - 1], e, s[n], t[n]);
        case Restarted => SyncSame(digest, s[n - 1], t[n - 1], s[n], t[n]);
      }
    }
  }

  // ---------- a put that lowers a rank ----------

  function OneTo(n: nat): (s: set<Account>)
    ensures |s| == n && forall a: Account :: a in s <==> 1 <= a <= n
  {
    if n == 0 then {} else OneTo(n - 1) + {n}
  }

  /** Eight leading candidates with 10, 20, ..., 80 votes and a ninth with 5. */
  function Example(): Store
  {
    var top := map a: Account | 1 <= a <= 8 :: Info(10 * a, 0, 0);
    Store(top[9 := Info(5, 0, 0)], top, 8, Entry(1, Info(10, 0, 0)))
  }

  lemma ExampleSize()
    ensures |Example().leading.Keys| == 8
  {
    assert Example().leading.Keys == OneTo(8);
  }

  lemma ExampleValid(digest: Digest)
    ensures Valid(digest, Example())
  {
    ExampleSize();
    var s := Example();
    forall a, b | a in s.leading && b in s.candidacy && b !in s.leading
      ensures Greater(digest, At(s.leading, a), At(s.candidacy, b))
    {
      assert b == 9;
    }
  }

  /** Account 8 falls from 80 votes to 1 and stays in the cache although account 9 has 5. */
  lemma DemotionBreaksTop(digest: Digest, s': Store)
    requires Put(digest, Example(), Entry(8, Info(1, 0, 0)), s')
    ensures Valid(digest, Example()) && Demotes(digest, Example(), Entry(8, Info(1, 0, 0)))
    ensures !IsTop(digest, s'.candidacy, s'.leading)
  {
    ExampleValid(digest);
    assert s'.leading == Example().leading[8 := Info(1, 0, 0)];
    assert At(s'.candidacy, 9) == Entry(9, Info(5, 0, 0)) && At(s'.leading, 8) == Entry(8, Info(1, 0, 0));
  }

  /** After that put the remembered minimum is wrong, and a sync does change a later put: a candidate with 7
      votes stays out without it and enters with it. */
  lemma SyncAfterDemotion(digest: Digest, s1: Store, t1: Store, s2: Store, t2: Store)
    requires CollisionFree(digest)
    requires Put(digest, Example(), Entry(8, Info(1, 0, 0)), s1) && Synced(digest, s1, t1)
    requires Put(digest, s1, Entry(10, Info(7, 0, 0)), s2) && Put(digest, t1, Entry(10, Info(7, 0, 0)), t2)
    ensures !Counted(digest, s1) && 10 !in s2.leading && 10 in t2.leading
  {
    assert s1.leading == Example().leading[8 := Info(1, 0, 0)];
    assert At(s1.leading, 8) == Entry(8, Info(1, 0, 0)) && At(s1.leading, 1) == Entry(1, Info(10, 0, 0));
    ExampleSize();
    assert s1.leading.Keys == Example().leading.Keys;
    assert t1.min.account == 8;
  }

  // ---------- the store as the source keeps it ----------

  ghost predicate MinSoFar(digest: Digest, m: map<Account, Info>, min: Entry, seen: set<Account>)
  {
    && min.account in seen && seen <= m.Keys && m[min.account] == min.info
    && forall a :: a in seen && a != min.account ==> Greater(digest, At(m, a), min)
  }

  lemma MinStep(digest: Digest, m: map<Account, Info>, min: Entry, a: Account, seen: set<Account>)
    requires CollisionFree(digest) && a in m && seen <= m.Keys && a !in seen
    ensures seen == {} ==> MinSoFar(digest, m, At(m, a), seen + {a})
    ensures MinSoFar(digest, m, min, seen)
      ==> MinSoFar(digest, m, if Greater(digest, At(m, a), min) then min else At(m, a), seen + {a})
  {
    if MinSoFar(digest, m, min, seen) && !Greater(digest, At(m, a), min) {
      GreaterTotal(digest, At(m, a), min);
      forall b | b in seen
        ensures Greater(digest, At(m, b), At(m, a))
      {
        if b != min.account { GreaterTrans(digest, At(m, b), min, At(m, a)); }
      }
    }
  }

  /** The loop of sync_leading_candidates: one pass, in whatever order the keys are listed. */
  method Scan(digest: Digest, m: map<Account, Info>) returns (count: nat, min: Entry)
    requires CollisionFree(digest)
    ensures count == |m.Keys|
    ensures if m.Keys == {} then min == NOBODY else IsMin(digest, m, min)
  {
    count, min := 0, NOBODY;
    var rest := m.Keys;
    ghost var seen: set<Account> := {};
    while rest != {}
      invariant seen <= m.Keys && rest == m.Keys - seen && count == |seen|
      invariant seen == {} ==> min == NOBODY
      invariant seen != {} ==> MinSoFar(digest, m, min, seen)
      decreases rest
    {
      var a :| a in rest;
      count, min := ScanOne(digest, m, count, min, a, seen);
      rest, seen := rest - {a}, seen + {a};
    }
    assert seen == m.Keys;
  }

  method ScanOne(digest: Digest, m: map<Account, Info>, count: nat, min: Entry, a: Account, ghost seen: set<Account>)
    returns (count': nat, min': Entry)
    requires CollisionFree(digest) && seen <= m.Keys && a in m && a !in seen && count == |seen|
    requires seen != {} ==> MinSoFar(digest, m, min, seen)
    ensures count' == |seen + {a}| && MinSoFar(digest, m, min', seen + {a})
  {
    MinStep(digest, m, min, a, seen);
    count', min' := count + 1, min;
    if count' == 1 || !Greater(digest, At(m, a), min) {
      min' := At(m, a);
    }
  }

  class BlockStore {
    const digest: Digest
    var candidacyDb: map<Account, Info>
    var leadingDb: map<Account, Info>
    var leadingSize: nat
    var minLeading: Entry

    constructor (digest: Digest)
      ensures View() == Store(map[], map[], 0, NOBODY) && this.digest == digest
      ensures Valid(digest, View())
    {
      this.digest := digest;
      candidacyDb, leadingDb, leadingSize, minLeading := map[], map[], 0, NOBODY;
    }

    function View(): Store
      reads this
    {
      Store(candidacyDb, leadingDb, leadingSize, minLeading)
    }

    /** sync_leading_candidates. */
    method SyncLeading()
      requires CollisionFree(digest)
      modifies this`leadingSize, this`minLeading
      ensures Synced(digest, old(View()), View())
    {
      leadingSize, minLeading := Scan(digest, leadingDb);
    }

    /** update_leading_candidates. */
    method UpdateLeading(account: Account, info: Info, ghost before: Store)
      requires CollisionFree(digest)
      requires View() == before.(candidacy := before.candidacy[account := info])
      modifies this`leadingDb, this`leadingSize, this`minLeading
      ensures Put(digest, before, Entry(account, info), View())
    {
      var full := leadingSize == LEADING;
      if account in leadingDb {
        leadingDb := leadingDb[account := info];
        if minLeading.account == account && full { SyncLeading(); }
      } else if full {
        if Greater(digest, Entry(account, info), minLeading) {
          leadingDb := leadingDb - {minLeading.account};
          leadingDb := leadingDb[account := info];
          SyncLeading();
        }
      } else {
        leadingDb := leadingDb[account := info];
        leadingSize := leadingSize + 1;
        if leadingSize == LEADING { SyncLeading(); }
      }
    }

    /** candidate_put. */
    method CandidatePut(account: Account, info: Info)
      requires CollisionFree(digest)
      modifies this
      ensures Put(digest, old(View()), Entry(account, info), View())
      ensures old(Valid(digest, View())) && old(KeepsRank(digest, View(), Entry(account, info)))
        ==> Valid(digest, View())
      ensures old(Valid(digest, View())) && old(KeepsRank(digest, View(), Entry(account, info))) ==>
        forall a, b :: a in leadingDb && b in candidacyDb && b !in leadingDb ==>
          leadingDb[a].votes >= candidacyDb[b].votes
          && (leadingDb[a].votes == candidacyDb[b].votes ==> leadingDb[a].stake >= candidacyDb[b].stake)
    {
      ghost var before := View();
      candidacyDb := candidacyDb[account := info];
      UpdateLeading(account, info, before);
      if Valid(digest, before) && KeepsRank(digest, before, Entry(account, info)) {
        RankKeptNotDemoted(digest, before, Entry(account, info));
        PutKeepsTop(digest, before, Entry(account, info), View());
        forall a, b | a in leadingDb && b in candidacyDb && b !in leadingDb
          ensures leadingDb[a].votes >= candidacyDb[b].votes
          ensures leadingDb[a].votes == candidacyDb[b].votes ==> leadingDb[a].stake >= candidacyDb[b].stake
        {
          TopByVotes(digest, candidacyDb, leadingDb, a, b);
        }
      }
    }
  }
}
