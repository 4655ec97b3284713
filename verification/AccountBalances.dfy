/**
  Accounts beside the voting-power ledger: every change of an account's available balance, and every
  change of its representative, is passed on to the ledger.
 */
module AccountBalances {
  import opened Collections
  import opened VotingPower

  datatype RepRecord = RepRecord(rep: Address, firstActive: nat)

  datatype Account = Account(balance: Amount, available: Amount, oldRep: RepRecord, newRep: RepRecord)

  /** account_info::GetRepForEpoch. */
  function RepFor(a: Account, epoch: nat): Address
  {
    if a.newRep.rep != 0 && epoch >= a.newRep.firstActive then a.newRep.rep else a.oldRep.rep
  }

  /** What GetRepForEpoch asserts. */
  predicate RepKnown(a: Account, epoch: nat)
  {
    (a.newRep.rep != 0 && epoch >= a.newRep.firstActive) || epoch >= a.oldRep.firstActive
  }

  datatype World = World(accounts: seq<Account>, powers: Powers, reps: set<Address>)

  /** The world after account `id` became `a` and the ledger `powers`, unless it halted. */
  function Moved(w: World, id: nat, a: Account, powers: Option<Powers>): Option<World>
    requires id < |w.accounts|
  {
    match powers
    case None => None
    case Some(p) => Some(World(w.accounts[id := a], p, w.reps))
  }

  // ---------- the setters ----------

  /** The calls of both setters: `op` and `diff` say how the available balance moved. */
  function Calls(a: Account, op: Op, diff: Amount, epoch: nat): seq<Change>
  {
    var rep, next := RepFor(a, epoch + 1), RepFor(a, epoch + 2);
    (if rep != 0 then [Change(op, rep, diff, epoch)] else [])
    + (if next != 0 && next != rep
       then [Change(Opposite(op), rep, diff, epoch + 1), Change(op, next, diff, epoch + 1)] else [])
  }

  function Mirror(w: World, a: Account, op: Op, diff: Amount, epoch: nat): Option<Powers>
  {
    if RepKnown(a, epoch + 1) then UpdateAll(w.powers, w.reps, Calls(a, op, diff, epoch)) else None
  }

  function DirectionTo(from: Amount, to: Amount): Op { if to > from then Add else Subtract }

  function Distance(from: Amount, to: Amount): Amount { if to > from then to - from else from - to }

  /** account_info::SetBalance.  None: the node halts. */
  function SetBalance(w: World, id: nat, newBalance: Amount, epoch: nat): Option<World>
    requires id < |w.accounts|
  {
    var a := w.accounts[id];
    var diff := Distance(a.balance, newBalance);
    if newBalance > a.balance then
      Moved(w, id, a.(balance := newBalance, available := (a.available + diff) % AMOUNT_LIMIT),
            Mirror(w, a, Add, diff, epoch))
    else if diff > a.available then None
    else
      Moved(w, id, a.(balance := newBalance, available := a.available - diff), Mirror(w, a, Subtract, diff, epoch))
  }

  /** account_info::SetAvailableBalance. */
  function SetAvailable(w: World, id: nat, newAvailable: Amount, epoch: nat): Option<World>
    requires id < |w.accounts|
  {
    var a := w.accounts[id];
    if newAvailable > a.balance then None
    else
      Moved(w, id, a.(available := newAvailable),
            Mirror(w, a, DirectionTo(a.available, newAvailable), Distance(a.available, newAvailable), epoch))
  }

  // ---------- a change of representative ----------

  /** The calls of StakingManager::Stake for an account without staked funds; target 0 is the account itself. */
  function ProxyCalls(a: Account, target: Address, epoch: nat): seq<Change>
  {
    var rep := RepFor(a, epoch + 1);
    (if target != 0 then [Change(Add, target, a.available, epoch)] else [])
    + (if rep != 0 then [Change(Subtract, rep, a.available, epoch)] else [])
  }

  /** UpdateRep. */
  function UpdatedRep(a: Account, target: Address, epoch: nat): Account
  {
    a.(oldRep := if epoch + 1 > a.newRep.firstActive then a.newRep else a.oldRep,
       newRep := RepRecord(target, epoch + 1))
  }

  /** The representative that a change made in `epoch` replaces: the newer one, unless that was named in the same
      epoch and has not started. */
  function Outgoing(a: Account, epoch: nat): RepRecord
  {
    if a.newRep.firstActive <= epoch then a.newRep else a.oldRep
  }

  /** From the next epoch on the account is represented by the target, or, given up, still by the outgoing one. */
  lemma RepFromNextEpoch(a: Account, target: Address, epoch: nat, ep: nat)
    requires ep > epoch
    ensures RepFor(UpdatedRep(a, target, epoch), ep) == if target != 0 then target else Outgoing(a, epoch).rep
    ensures target != 0 ==> RepKnown(UpdatedRep(a, target, epoch), ep)
  {
  }

  /** Up to the current epoch the answer stays if and only if the change is the second in its epoch, or the newer
      representative was the answer, or both were the same. */
  lemma RepUpToEpoch(a: Account, target: Address, epoch: nat, ep: nat)
    requires a.newRep.firstActive <= epoch + 1 && ep <= epoch
    ensures RepFor(UpdatedRep(a, target, epoch), ep) == RepFor(a, ep) <==>
      a.newRep.firstActive == epoch + 1 || (a.newRep.rep != 0 && a.newRep.firstActive <= ep)
      || a.newRep.rep == a.oldRep.rep
    ensures a.newRep.firstActive == epoch + 1 || (a.newRep.rep != 0 && a.newRep.firstActive <= ep) ==>
      (RepKnown(UpdatedRep(a, target, epoch), ep) <==> RepKnown(a, ep))
  {
  }

  /** An account keeps two records: after a third representative an epoch of the first is answered with the second,
      and the lookup fails its assertion. */
  lemma FirstOfThreeForgotten(a: Account)
    requires a == Account(100, 100, RepRecord(1, 0), RepRecord(2, 5))
    ensures RepFor(a, 3) == 1 && RepKnown(a, 3)
    ensures RepFor(UpdatedRep(a, 3, 10), 3) == 2 && !RepKnown(UpdatedRep(a, 3, 10), 3)
    ensures RepFor(UpdatedRep(a, 3, 10), 10) == 2 && RepFor(UpdatedRep(UpdatedRep(a, 3, 10), 0, 10), 11) == 2
  {
    RepUpToEpoch(a, 3, 10, 3);
    RepUpToEpoch(a, 3, 10, 10);
  }

  /** With records in order, the lookup succeeds exactly from the older one's first epoch on. */
  lemma KnownFromOlder(a: Account, ep: nat)
    requires a.oldRep.firstActive <= a.newRep.firstActive
    ensures RepKnown(a, ep) <==> ep >= a.oldRep.firstActive
  {
  }

  /** Changes of representative keep the records in order. */
  lemma RecordsInOrder(a: Account, target: Address, epoch: nat)
    requires a.oldRep.firstActive <= a.newRep.firstActive <= epoch + 1
    ensures var b := UpdatedRep(a, target, epoch); b.oldRep.firstActive <= b.newRep.firstActive == epoch + 1
    ensures var b := UpdatedRep(a, target, epoch); b.balance == a.balance && b.available == a.available
  {
  }

  function ChangeRep(w: World, id: nat, target: Address, epoch: nat): Option<World>
    requires id < |w.accounts|
  {
    var a := w.accounts[id];
    if !RepKnown(a, epoch + 1) || epoch + 1 < a.newRep.firstActive then None
    else Moved(w, id, UpdatedRep(a, target, epoch), UpdateAll(w.powers, w.reps, ProxyCalls(a, target, epoch)))
  }

  // ---------- when the node halts ----------

  /** When a setter's calls halt: a representative is not known or not on record, the change does not fit a
      record, the first call drops the record that the undo looks up, or the undo looks up the zero address. */
  predicate CallsHalt(w: World, a: Account, op: Op, diff: Amount, epoch: nat)
  {
    var rep, next := RepFor(a, epoch + 1), RepFor(a, epoch + 2);
    var first := Change(op, rep, diff, epoch);
    || !RepKnown(a, epoch + 1)
    || (rep != 0 && !Takes(w.powers, first))
    || (next != 0 && next != rep && (
          || !Takes(w.powers, Change(op, next, diff, epoch + 1))
          || (if rep == 0 then !Takes(w.powers, Change(Opposite(op), 0, diff, epoch + 1))
              else Drops(w.powers, w.reps, first))))
  }

  lemma MirrorHalts(w: World, a: Account, op: Op, diff: Amount, epoch: nat)
    ensures Mirror(w, a, op, diff, epoch).None? <==> CallsHalt(w, a, op, diff, epoch)
  {
    var rep, next := RepFor(a, epoch + 1), RepFor(a, epoch + 2);
    var first, undo := Change(op, rep, diff, epoch), Change(Opposite(op), rep, diff, epoch + 1);
    var redo := Change(op, next, diff, epoch + 1);
    var moved := if next != 0 && next != rep then [undo, redo] else [];
    UpdateHalts(w.powers, w.reps, first);
    if rep == 0 {
      assert Calls(a, op, diff, epoch) == moved;
      if moved != [] { UndoRedo(w.powers, w.reps, undo, redo); }
    } else {
      assert Calls(a, op, diff, epoch) == [first] + moved;
      FirstChange(w.powers, w.reps, first, moved);
      if Takes(w.powers, first) && moved != [] {
        var p := Update(w.powers, w.reps, first).value;
        UndoRedo(p, w.reps, undo, redo);
        if !Drops(w.powers, w.reps, first) { UndoTaken(w.powers, w.reps, first); }
      }
    }
  }

  /** Two calls that name different representatives halt exactly if one of them does. */
  lemma UndoRedo(powers: Powers, reps: set<Address>, c: Change, d: Change)
    requires c.rep != d.rep
    ensures UpdateAll(powers, reps, [c, d]).Some? <==> Takes(powers, c) && Takes(powers, d)
  {
    TwoChanges(powers, reps, c, d);
    UpdateHalts(powers, reps, c);
    if Takes(powers, c) { UpdateHalts(Update(powers, reps, c).value, reps, d); }
  }

  /** SetBalance halts exactly if more is taken than is available or its calls halt. */
  lemma SetBalanceHalts(w: World, id: nat, newBalance: Amount, epoch: nat)
    requires id < |w.accounts|
    ensures var a := w.accounts[id]; var diff := Distance(a.balance, newBalance);
      SetBalance(w, id, newBalance, epoch).None? <==>
        (newBalance <= a.balance && diff > a.available)
          || CallsHalt(w, a, DirectionTo(a.balance, newBalance), diff, epoch)
  {
    var a := w.accounts[id];
    MirrorHalts(w, a, DirectionTo(a.balance, newBalance), Distance(a.balance, newBalance), epoch);
  }

  /** SetAvailableBalance halts exactly if more would be available than there is or its calls halt. */
  lemma SetAvailableHalts(w: World, id: nat, newAvailable: Amount, epoch: nat)
    requires id < |w.accounts|
    ensures var a := w.accounts[id];
      SetAvailable(w, id, newAvailable, epoch).None? <==>
        newAvailable > a.balance
        || CallsHalt(w, a, DirectionTo(a.available, newAvailable), Distance(a.available, newAvailable), epoch)
  {
    var a := w.accounts[id];
    MirrorHalts(w, a, DirectionTo(a.available, newAvailable), Distance(a.available, newAvailable), epoch);
  }

  /** When a change of representative halts. */
  predicate ProxyHalts(w: World, a: Account, target: Address, epoch: nat)
  {
    var rep := RepFor(a, epoch + 1);
    var add := Change(Add, target, a.available, epoch);
    || !RepKnown(a, epoch + 1) || epoch + 1 < a.newRep.firstActive
    || (target != 0 && !Takes(w.powers, add))
    || (rep != 0 && (if rep == target then Drops(w.powers, w.reps, add)
                     else !Takes(w.powers, Change(Subtract, rep, a.available, epoch))))
  }

  lemma ChangeRepHalts(w: World, id: nat, target: Address, epoch: nat)
    requires id < |w.accounts|
    ensures ChangeRep(w, id, target, epoch).None? <==> ProxyHalts(w, w.accounts[id], target, epoch)
  {
    var a := w.accounts[id];
    var rep := RepFor(a, epoch + 1);
    var add, sub := Change(Add, target, a.available, epoch), Change(Subtract, rep, a.available, epoch);
    UpdateHalts(w.powers, w.reps, add);
    UpdateHalts(w.powers, w.reps, sub);
    if target != 0 && rep != 0 {
      assert ProxyCalls(a, target, epoch) == [add, sub];
      TwoChanges(w.powers, w.reps, add, sub);
      if Takes(w.powers, add) { UpdateHalts(Update(w.powers, w.reps, add).value, w.reps, sub); }
    } else if target != 0 {
      assert ProxyCalls(a, target, epoch) == [add];
      OneChange(w.powers, w.reps, add);
    } else if rep != 0 {
      assert ProxyCalls(a, target, epoch) == [sub];
      OneChange(w.powers, w.reps, sub);
    }
  }

  // ---------- the ledger in step with the accounts ----------

  /** What an account adds to the power of `r` in an epoch. */
  function Share(a: Account, r: Address, ep: nat): nat
  {
    if RepFor(a, ep) == r then a.available else 0
  }

  /** Available balances of the first `n` accounts proxied to `r` in `ep`. */
  ghost function Proxied(accounts: seq<Account>, r: Address, ep: nat, n: nat): nat
    requires n <= |accounts|
  {
    if n == 0 then 0 else Proxied(accounts, r, ep, n - 1) + Share(accounts[n - 1], r, ep)
  }

  /** Nothing is available that is not there. */
  ghost predicate Sound(accounts: seq<Account>)
  {
    forall i :: 0 <= i < |accounts| ==> accounts[i].available <= accounts[i].balance
  }

  /** In every epoch after `now`, r holds the available balances of exactly the accounts proxied to it. */
  ghost predicate Tracked(w: World, r: Address, now: nat)
  {
    && (r in w.powers ==> w.powers[r].epochModified <= now + 1)
    && forall ep :: ep > now ==> Power(w.powers, r, ep) == Proxied(w.accounts, r, ep, |w.accounts|)
  }

  /** So does every representative, on record or not. */
  ghost predicate InStep(w: World, now: nat)
  {
    Sound(w.accounts) && forall r :: r != 0 ==> Tracked(w, r, now)
  }

  lemma {:induction false} ProxiedChange(accounts: seq<Account>, id: nat, a: Account, r: Address, ep: nat, n: nat)
    requires id < |accounts| && n <= |accounts|
    ensures Proxied(accounts[id := a], r, ep, n) as int
      == Proxied(accounts, r, ep, n) as int + if id < n then Share(a, r, ep) - Share(accounts[id], r, ep) else 0
  {
    if n == 0 {
    } else {
      ProxiedChange(accounts, id, a, r, ep, n - 1);
    }
  }

  /** The calls move exactly what the account moves, in every epoch after `now`. */
  ghost predicate Follows(a: Account, a': Account, changes: seq<Change>, now: nat)
  {
    forall r, ep :: r != 0 && ep > now ==> Net(changes, r, ep) == Share(a', r, ep) - Share(a, r, ep)
  }

  /** The calls drop a record that still has power in the epoch after `now`. */
  predicate StrandsOne(w: World, changes: seq<Change>, now: nat)
  {
    exists i :: 0 <= i < |changes| && changes[i].rep != 0 && Strands(w.powers, w.reps, changes, changes[i].rep, now)
  }

  /** What a call did: account `id` became a', the ledger took the changes, `now` moved on. */
  ghost predicate Happened(w: World, w': World, id: nat, a': Account, changes: seq<Change>, now: nat)
  {
    && id < |w.accounts| && w'.accounts == w.accounts[id := a'] && w'.reps == w.reps
    && UpdateAll(w.powers, w.reps, changes) == Some(w'.powers)
    && Until(changes, now + 1) && a'.available <= a'.balance
  }

  /** The power of r after the calls, compared with what is now proxied to it. */
  lemma PowerNow(w: World, w': World, id: nat, a': Account, changes: seq<Change>, now: nat, r: Address, ep: nat)
    requires InStep(w, now) && Happened(w, w', id, a', changes, now) && r != 0 && ep > now
    ensures r in w'.powers ==> w'.powers[r].epochModified <= now + 1
    ensures !Strands(w.powers, w.reps, changes, r, now) || ep > now + 1 ==>
      Power(w'.powers, r, ep) - Proxied(w'.accounts, r, ep, |w'.accounts|)
      == Net(changes, r, ep) - (Share(a', r, ep) - Share(w.accounts[id], r, ep))
    ensures Strands(w.powers, w.reps, changes, r, now) ==>
      Power(w'.powers, r, now + 1) == 0
      && Proxied(w'.accounts, r, now + 1, |w'.accounts|) - (Share(a', r, now + 1) - Share(w.accounts[id], r, now + 1))
         + Net(changes, r, now + 1) != 0
  {
    assert Tracked(w, r, now);
    PowerAfter(w.powers, w.reps, changes, w'.powers, r, now, ep);
    PowerAfter(w.powers, w.reps, changes, w'.powers, r, now, now + 1);
    ProxiedChange(w.accounts, id, a', r, ep, |w.accounts|);
    ProxiedChange(w.accounts, id, a', r, now + 1, |w.accounts|);
  }

  /** Calls that follow the account keep the ledger in step exactly if they strand nobody. */
  lemma FollowingExactly(w: World, w': World, id: nat, a': Account, changes: seq<Change>, now: nat)
    requires InStep(w, now) && Happened(w, w', id, a', changes, now) && Follows(w.accounts[id], a', changes, now)
    ensures InStep(w', now) <==> !StrandsOne(w, changes, now)
  {
    if StrandsOne(w, changes, now) {
      var i :| 0 <= i < |changes| && changes[i].rep != 0 && Strands(w.powers, w.reps, changes, changes[i].rep, now);
      var r := changes[i].rep;
      PowerNow(w, w', id, a', changes, now, r, now + 1);
      assert Net(changes, r, now + 1) == Share(a', r, now + 1) - Share(w.accounts[id], r, now + 1);
      assert !Tracked(w', r, now);
    } else {
      forall r | r != 0 ensures Tracked(w', r, now) {
        assert !Strands(w.powers, w.reps, changes, r, now);
        forall ep: nat | ep > now
          ensures Power(w'.powers, r, ep) == Proxied(w'.accounts, r, ep, |w'.accounts|)
        {
          PowerNow(w, w', id, a', changes, now, r, ep);
          assert Net(changes, r, ep) == Share(a', r, ep) - Share(w.accounts[id], r, ep);
        }
        PowerNow(w, w', id, a', changes, now, r, now + 1);
      }
    }
  }

  /** Calls that miss the account's move in a later epoch put the ledger out of step. */
  lemma MissingBreaks(w: World, w': World, id: nat, a': Account, changes: seq<Change>, now: nat, r: Address, ep: nat)
    requires InStep(w, now) && Happened(w, w', id, a', changes, now) && r != 0 && ep > now + 1
    requires Net(changes, r, ep) != Share(a', r, ep) - Share(w.accounts[id], r, ep)
    ensures !InStep(w', now)
  {
    PowerNow(w, w', id, a', changes, now, r, ep);
    assert !Tracked(w', r, now);
  }

  /** A ledger in step stays so as time goes by. */
  lemma StillInStep(w: World, now: nat, later: nat)
    requires InStep(w, now) && now <= later
    ensures InStep(w, later)
  {
    forall r | r != 0 ensures Tracked(w, r, later) {
      assert Tracked(w, r, now);
    }
  }

  // ---------- the setters, exactly ----------

  lemma {:induction false} NetConcat(c: seq<Change>, d: seq<Change>, r: Address, ep: nat)
    ensures Net(c + d, r, ep) == Net(c, r, ep) + Net(d, r, ep)
  {
    if c == [] {
      assert c + d == d;
    } else {
      assert (c + d)[1..] == c[1..] + d;
      NetConcat(c[1..], d, r, ep);
    }
  }

  lemma NetOfOne(c: Change, r: Address, ep: nat)
    ensures Net([c], r, ep) == Effect(c, r, ep)
  {
    assert [c][1..] == [];
  }

  lemma NetOfTwo(c: Change, d: Change, r: Address, ep: nat)
    ensures Net([c, d], r, ep) == Effect(c, r, ep) + Effect(d, r, ep)
  {
    assert [c, d] == [c] + [d];
    NetConcat([c], [d], r, ep);
    NetOfOne(c, r, ep);
    NetOfOne(d, r, ep);
  }

  /** What the calls of a setter add up to: the representative of epoch + 1 in that epoch, that of epoch + 2
      after it. */
  lemma NetOfCalls(a: Account, op: Op, diff: Amount, epoch: nat, r: Address, ep: nat)
    requires r != 0 && ep > epoch
    ensures Net(Calls(a, op, diff, epoch), r, ep)
      == if r == RepFor(a, if ep == epoch + 1 then ep else epoch + 2) then Signed(op, diff) else 0
  {
    var rep, next := RepFor(a, epoch + 1), RepFor(a, epoch + 2);
    var first := if rep != 0 then [Change(op, rep, diff, epoch)] else [];
    var undo, redo := Change(Opposite(op), rep, diff, epoch + 1), Change(op, next, diff, epoch + 1);
    var moved := if next != 0 && next != rep then [undo, redo] else [];
    NetConcat(first, moved, r, ep);
    NetOfOne(Change(op, rep, diff, epoch), r, ep);
    NetOfTwo(undo, redo, r, ep);
  }

  /** The representative of epoch + 2 is the one for good. */
  predicate Covered(a: Account, epoch: nat)
  {
    a.newRep.rep == 0 || a.newRep.firstActive <= epoch + 2 || a.newRep.rep == a.oldRep.rep
  }

  lemma RepAfter(a: Account, epoch: nat, ep: nat)
    requires Covered(a, epoch) && ep > epoch
    ensures RepFor(a, ep) == RepFor(a, if ep == epoch + 1 then ep else epoch + 2)
  {
  }

  /** The condition under which a setter keeps the ledger in step; `now` is the later of the latest epoch and the
      call's. */
  ghost predicate Careful(w: World, a: Account, op: Op, diff: Amount, epoch: nat, now: nat)
  {
    (diff == 0 || Covered(a, epoch)) && !StrandsOne(w, Calls(a, op, diff, epoch), now)
  }

  /** A setter that does not halt keeps the ledger in step exactly under that condition. */
  lemma SetterExactly(w: World, w': World, id: nat, a': Account, op: Op, diff: Amount, epoch: nat, now: nat)
    requires InStep(w, now) && id < |w.accounts| && epoch <= now
    requires Mirror(w, w.accounts[id], op, diff, epoch) == Some(w'.powers)
    requires w'.accounts == w.accounts[id := a'] && w'.reps == w.reps
    requires a'.oldRep == w.accounts[id].oldRep && a'.newRep == w.accounts[id].newRep
    requires a'.available as int == w.accounts[id].available as int + Signed(op, diff) && a'.available <= a'.balance
    ensures InStep(w', now) <==> Careful(w, w.accounts[id], op, diff, epoch, now)
  {
    var a := w.accounts[id];
    var changes := Calls(a, op, diff, epoch);
    if diff == 0 || Covered(a, epoch) {
      forall r, ep: nat | r != 0 && ep > now
        ensures Net(changes, r, ep) == Share(a', r, ep) - Share(a, r, ep)
      {
        NetOfCalls(a, op, diff, epoch, r, ep);
        if diff != 0 { RepAfter(a, epoch, ep); }
      }
      FollowingExactly(w, w', id, a', changes, now);
    } else {
      var r, ep := a.newRep.rep, Later(now + 2, a.newRep.firstActive);
      NetOfCalls(a, op, diff, epoch, r, ep);
      MissingBreaks(w, w', id, a', changes, now, r, ep);
    }
  }

  /** SetBalance keeps what is locked, does not wrap, and keeps step exactly under the condition. */
  /** A balance change keeps the part that is not available, without wrap-around; it needs only that the account's
      available balance was within its balance. */
  lemma SetBalanceKeepsRest(w: World, w': World, id: nat, newBalance: Amount, epoch: nat)
    requires id < |w.accounts| && w.accounts[id].available <= w.accounts[id].balance
    requires SetBalance(w, id, newBalance, epoch) == Some(w')
    ensures |w'.accounts| == |w.accounts| && w'.accounts == w.accounts[id := w'.accounts[id]]
    ensures var a, a' := w.accounts[id], w'.accounts[id];
      a'.balance == newBalance && a'.balance - a'.available == a.balance - a.available && a'.available <= a'.balance
  {
  }

  /** A change of the available balance stays within the balance, whatever the account held before. */
  lemma SetAvailableWithin(w: World, w': World, id: nat, newAvailable: Amount, epoch: nat)
    requires id < |w.accounts| && SetAvailable(w, id, newAvailable, epoch) == Some(w')
    ensures |w'.accounts| == |w.accounts| && w'.accounts == w.accounts[id := w'.accounts[id]]
    ensures w'.accounts[id].available == newAvailable <= w'.accounts[id].balance == w.accounts[id].balance
  {
  }

  lemma SetBalanceExactly(w: World, w': World, id: nat, newBalance: Amount, epoch: nat, now: nat)
    requires InStep(w, now) && id < |w.accounts| && SetBalance(w, id, newBalance, epoch) == Some(w')
    ensures var a := w.accounts[id];
      InStep(w', Later(now, epoch)) <==>
        Careful(w, a, DirectionTo(a.balance, newBalance), Distance(a.balance, newBalance), epoch, Later(now, epoch))
  {
    var a := w.accounts[id];
    SetBalanceKeepsRest(w, w', id, newBalance, epoch);
    StillInStep(w, now, Later(now, epoch));
    SetterExactly(w, w', id, w'.accounts[id], DirectionTo(a.balance, newBalance), Distance(a.balance, newBalance),
                  epoch, Later(now, epoch));
  }

  lemma SetAvailableExactly(w: World, w': World, id: nat, newAvailable: Amount, epoch: nat, now: nat)
    requires InStep(w, now) && id < |w.accounts| && SetAvailable(w, id, newAvailable, epoch) == Some(w')
    ensures var a := w.accounts[id];
      InStep(w', Later(now, epoch)) <==>
        Careful(w, a, DirectionTo(a.available, newAvailable), Distance(a.available, newAvailable), epoch,
                Later(now, epoch))
  {
    var a := w.accounts[id];
    SetAvailableWithin(w, w', id, newAvailable, epoch);
    StillInStep(w, now, Later(now, epoch));
    SetterExactly(w, w', id, w'.accounts[id], DirectionTo(a.available, newAvailable),
                  Distance(a.available, newAvailable), epoch, Later(now, epoch));
  }

  // ---------- a change of representative, exactly ----------

  lemma NetOfProxyCalls(a: Account, target: Address, epoch: nat, r: Address, ep: nat)
    requires r != 0 && ep > epoch
    ensures Net(ProxyCalls(a, target, epoch), r, ep)
      == (if r == target then a.available else 0) - (if r == RepFor(a, epoch + 1) then a.available else 0)
  {
    var rep := RepFor(a, epoch + 1);
    var add := if target != 0 then [Change(Add, target, a.available, epoch)] else [];
    var sub := if rep != 0 then [Change(Subtract, rep, a.available, epoch)] else [];
    NetConcat(add, sub, r, ep);
    NetOfOne(Change(Add, target, a.available, epoch), r, ep);
    NetOfOne(Change(Subtract, rep, a.available, epoch), r, ep);
  }

  /** Giving up a representative is forgotten by GetRepForEpoch unless the record before it was empty too. */
  ghost predicate CarefulProxy(w: World, a: Account, target: Address, epoch: nat, now: nat)
  {
    && (a.available == 0 || target != 0 || (if a.newRep.firstActive <= epoch then a.newRep.rep else a.oldRep.rep) == 0)
    && !StrandsOne(w, ProxyCalls(a, target, epoch), now)
  }

  lemma ChangeRepExactly(w: World, w': World, id: nat, target: Address, epoch: nat, now: nat)
    requires InStep(w, now) && id < |w.accounts| && ChangeRep(w, id, target, epoch) == Some(w')
    ensures InStep(w', Later(now, epoch)) <==> CarefulProxy(w, w.accounts[id], target, epoch, Later(now, epoch))
  {
    var a, later := w.accounts[id], Later(now, epoch);
    var a', changes := UpdatedRep(a, target, epoch), ProxyCalls(a, target, epoch);
    StillInStep(w, now, later);
    if a.available == 0 || target != 0 || a'.oldRep.rep == 0 {
      forall r, ep: nat | r != 0 && ep > later
        ensures Net(changes, r, ep) == Share(a', r, ep) - Share(a, r, ep)
      {
        NetOfProxyCalls(a, target, epoch, r, ep);
      }
      FollowingExactly(w, w', id, a', changes, later);
    } else {
      NetOfProxyCalls(a, target, epoch, a'.oldRep.rep, later + 2);
      MissingBreaks(w, w', id, a', changes, later, a'.oldRep.rep, later + 2);
    }
  }

  // ---------- runs ----------

  datatype Call =
    | Balance(id: nat, amount: Amount, epoch: nat)
    | Available(id: nat, amount: Amount, epoch: nat)
    | Proxy(id: nat, target: Address, epoch: nat)

  function Perform(w: World, c: Call): Option<World>
    requires c.id < |w.accounts|
  {
    match c
    case Balance(id, amount, epoch) => SetBalance(w, id, amount, epoch)
    case Available(id, amount, epoch) => SetAvailable(w, id, amount, epoch)
    case Proxy(id, target, epoch) => ChangeRep(w, id, target, epoch)
  }

  /** The condition of the call, read off the world before it. */
  ghost predicate KeepsStep(w: World, c: Call, now: nat)
    requires c.id < |w.accounts|
  {
    var a, later := w.accounts[c.id], Later(now, c.epoch);
    match c
    case Balance(_, amount, epoch) =>
      Careful(w, a, DirectionTo(a.balance, amount), Distance(a.balance, amount), epoch, later)
    case Available(_, amount, epoch) =>
      Careful(w, a, DirectionTo(a.available, amount), Distance(a.available, amount), epoch, later)
    case Proxy(_, target, epoch) => CarefulProxy(w, a, target, epoch, later)
  }

  lemma CallExactly(w: World, w': World, c: Call, now: nat)
    requires InStep(w, now) && c.id < |w.accounts| && Perform(w, c) == Some(w')
    ensures InStep(w', Later(now, c.epoch)) <==> KeepsStep(w, c, now)
  {
    match c {
      case Balance(id, amount, epoch) => SetBalanceExactly(w, w', id, amount, epoch, now);
      case Available(id, amount, epoch) => SetAvailableExactly(w, w', id, amount, epoch, now);
      case Proxy(id, target, epoch) => ChangeRepExactly(w, w', id, target, epoch, now);
    }
  }

  /** The worlds a run goes through without halting. */
  ghost predicate Run(worlds: seq<World>, calls: seq<Call>)
  {
    && |worlds| == |calls| + 1
    && forall i :: 0 <= i < |calls| ==>
         calls[i].id < |worlds[i].accounts| && Perform(worlds[i], calls[i]) == Some(worlds[i + 1])
  }

  /** The latest epoch among `now` and the first `n` calls. */
  ghost function Clock(calls: seq<Call>, now: nat, n: nat): nat
    requires n <= |calls|
  {
    if n == 0 then now else Later(Clock(calls, now, n - 1), calls[n - 1].epoch)
  }

  /** The first n calls of a run met their conditions. */
  ghost predicate AllKeep(worlds: seq<World>, calls: seq<Call>, now: nat, n: nat)
    requires Run(worlds, calls) && n <= |calls|
  {
    forall i :: 0 <= i < n ==> KeepsStep(worlds[i], calls[i], Clock(calls, now, i))
  }

  /** Over every run of setters and changes of representative, in any order of epochs: the ledger is in step at
      every point up to n exactly if every call up to there met its condition. */
  lemma {:induction false} RunsExactly(worlds: seq<World>, calls: seq<Call>, now: nat, n: nat)
    requires Run(worlds, calls) && InStep(worlds[0], now) && n <= |calls|
    ensures (forall i :: 0 <= i <= n ==> InStep(worlds[i], Clock(calls, now, i))) <==> AllKeep(worlds, calls, now, n)
  {
    if n == 0 {
    } else {
      RunsExactly(worlds, calls, now, n - 1);
      if InStep(worlds[n - 1], Clock(calls, now, n - 1)) {
        CallExactly(worlds[n - 1], worlds[n], calls[n - 1], Clock(calls, now, n - 1));
      }
    }
  }

  /** Nobody registered is stranded, so a run among registered representatives needs only the first half of
      each condition. */
  lemma RegisteredNotStranded(w: World, changes: seq<Change>, now: nat)
    requires forall i :: 0 <= i < |changes| ==> changes[i].rep == 0 || changes[i].rep in w.reps
    ensures !StrandsOne(w, changes, now)
  {
  }

  // ---------- inputs on which a condition fails ----------

  /** An account whose first representative starts at epoch + 2 halts the node on any change: the undo looks up
      the zero address. */
  lemma FirstProxyHalts(w: World, id: nat, amount: Amount, epoch: nat)
    requires id < |w.accounts| && 0 !in w.powers
    requires RepFor(w.accounts[id], epoch + 1) == 0 && RepFor(w.accounts[id], epoch + 2) != 0
    ensures SetBalance(w, id, amount, epoch).None? && SetAvailable(w, id, amount, epoch).None?
  {
    SetBalanceHalts(w, id, amount, epoch);
    SetAvailableHalts(w, id, amount, epoch);
  }

  /** One account that moves from representative 1 to 2 in epoch 12, both records made in epoch 11. */
  function Switching(reps: set<Address>): World
  {
    World([Account(100, 100, RepRecord(1, 0), RepRecord(2, 12))],
          map[1 := PowerInfo(Levels(0, 0, 100), NOTHING, 11), 2 := PowerInfo(NOTHING, Levels(0, 0, 100), 11)], reps)
  }

  lemma SwitchingInStep(reps: set<Address>)
    ensures InStep(Switching(reps), 10)
  {
    var w := Switching(reps);
    forall r | r != 0 ensures Tracked(w, r, 10) {
      forall ep: nat | ep > 10 ensures Power(w.powers, r, ep) == Proxied(w.accounts, r, ep, 1) {
        assert Proxied(w.accounts, r, ep, 1) == Proxied(w.accounts, r, ep, 0) + Share(w.accounts[0], r, ep);
      }
    }
  }

  /** Representative 1 is no longer registered: a late rise of the balance drops its record, although 150 are
      proxied to it in epoch 11. */
  lemma LateRiseStrands(w': World)
    requires SetBalance(Switching({2}), 0, 150, 10) == Some(w')
    ensures InStep(Switching({2}), 10) && !InStep(w', 10)
    ensures 1 !in w'.powers && Proxied(w'.accounts, 1, 11, 1) == 150
  {
    var w := Switching({2});
    var a, changes := w.accounts[0], Calls(w.accounts[0], Add, 50, 10);
    SwitchingInStep({2});
    var first, undo, redo := Change(Add, 1, 50, 10), Change(Subtract, 1, 50, 11), Change(Add, 2, 50, 11);
    assert changes == [first] + [undo, redo];
    FirstChange(w.powers, w.reps, first, [undo, redo]);
    var p := Update(w.powers, w.reps, first).value;
    assert p[1] == PowerInfo(Levels(0, 0, 150), Levels(0, 0, 50), 11);
    TwoChanges(p, w.reps, undo, redo);
    assert Proxied(w'.accounts, 1, 11, 1) == Proxied(w'.accounts, 1, 11, 0) + Share(w'.accounts[0], 1, 11);
    assert !Tracked(w', 1, 10);
  }

  lemma LateRiseDoesNotHalt()
    ensures SetBalance(Switching({2}), 0, 150, 10).Some?
  {
    SetBalanceHalts(Switching({2}), 0, 150, 10);
  }

  /** With both registered and on record, every late decrease halts: the first call also lowers the epochs in
      which the account has already left. */
  lemma LateDecreaseHalts(amount: Amount)
    requires amount < 100
    ensures InStep(Switching({1, 2}), 10)
    ensures SetBalance(Switching({1, 2}), 0, amount, 10).None? && SetAvailable(Switching({1, 2}), 0, amount, 10).None?
  {
    SwitchingInStep({1, 2});
    SetBalanceHalts(Switching({1, 2}), 0, amount, 10);
    SetAvailableHalts(Switching({1, 2}), 0, amount, 10);
  }

  /** One account of representative 2 with everything available. */
  function Proxying(): World
  {
    var levels := Levels(0, 0, 100);
    World([Account(100, 100, RepRecord(0, 0), RepRecord(2, 5))], map[2 := PowerInfo(levels, levels, 10)], {2})
  }

  lemma ProxyingInStep()
    ensures InStep(Proxying(), 10)
  {
    var w := Proxying();
    forall r | r != 0 ensures Tracked(w, r, 10) {
      forall ep: nat | ep > 10 ensures Power(w.powers, r, ep) == Proxied(w.accounts, r, ep, 1) {
        assert Proxied(w.accounts, r, ep, 1) == Proxied(w.accounts, r, ep, 0) + Share(w.accounts[0], r, ep);
      }
    }
  }

  /** Giving up a representative takes the power away, but GetRepForEpoch still answers with the old one. */
  lemma GivingUpForgotten(w': World)
    requires ChangeRep(Proxying(), 0, 0, 10) == Some(w')
    ensures InStep(Proxying(), 10) && !InStep(w', 10)
    ensures RepFor(w'.accounts[0], 11) == 2 && w'.accounts[0].available == 100 && Power(w'.powers, 2, 11) == 0
  {
    var w, c := Proxying(), Change(Subtract, 2, 100, 10);
    ProxyingInStep();
    ChangeRepExactly(w, w', 0, 0, 10, 10);
    assert ProxyCalls(w.accounts[0], 0, 10) == [c];
    OneChange(w.powers, w.reps, c);
    UpdateAffectsLater(w.powers, w.reps, c, w'.powers, 2, 11);
  }

  lemma GivingUpDoesNotHalt()
    ensures ChangeRep(Proxying(), 0, 0, 10).Some?
  {
    ChangeRepHalts(Proxying(), 0, 0, 10);
  }

  // ---------- the setters as the source runs them ----------

  class Ledger {
    const reps: set<Address>
    var accounts: seq<Account>
    var powers: Powers

    constructor (reps: set<Address>, accounts: seq<Account>, powers: Powers)
      ensures View() == World(accounts, powers, reps)
    {
      this.reps, this.accounts, this.powers := reps, accounts, powers;
    }

    function View(): World
      reads this
    {
      World(accounts, powers, reps)
    }

    /** AddUnlockedProxied / SubtractUnlockedProxied. */
    method UpdateUnlockedProxied(c: Change) returns (halted: bool)
      modifies this`powers
      ensures Update(old(powers), reps, c) == if halted then None else Some(powers)
      ensures halted <==> !Takes(old(powers), c)
      ensures !halted ==> forall r, ep: nat :: r in powers && ep >= c.epoch && ep >= old(powers)[r].epochModified ==>
        LevelsIn(powers[r], ep)
          == LevelsIn(old(powers)[r], ep).(unlocked := PowerIn(old(powers)[r], ep) + Effect(c, r, ep))
    {
      ghost var before := powers;
      if c.rep !in powers { return true; }
      var info := powers[c.rep];
      if c.epoch > info.epochModified {
        info := info.(current := info.next, epochModified := c.epoch);
      }
      if c.epoch < info.epochModified {
        var current := Apply(c.op, info.current.unlocked, c.diff);
        if current.None? { return true; }
        info := info.(current := info.current.(unlocked := current.value));
      }
      var next := Apply(c.op, info.next.unlocked, c.diff);
      if next.None? { return true; }
      info := info.(next := info.next.(unlocked := next.value));
      powers := if CanPrune(reps, c.rep, info) then powers - {c.rep} else powers[c.rep := info];
      forall r, ep: nat | r in powers && ep >= c.epoch && ep >= before[r].epochModified
        ensures LevelsIn(powers[r], ep)
             == LevelsIn(before[r], ep).(unlocked := PowerIn(before[r], ep) + Effect(c, r, ep))
      {
        UpdateAffectsLater(before, reps, c, powers, r, ep);
      }
      return false;
    }

    /** Undo at the old representative, redo at the new one. */
    method UndoAndRedo(rep: Address, nextRep: Address, op: Op, diff: Amount, epoch: nat) returns (halted: bool)
      modifies this`powers
      ensures UpdateAll(old(powers), reps, [Change(Opposite(op), rep, diff, epoch), Change(op, nextRep, diff, epoch)])
           == if halted then None else Some(powers)
    {
      var undo, redo := Change(Opposite(op), rep, diff, epoch), Change(op, nextRep, diff, epoch);
      TwoChanges(powers, reps, undo, redo);
      halted := UpdateUnlockedProxied(undo);
      if !halted { halted := UpdateUnlockedProxied(redo); }
    }

    /** The calls both setters make to the voting power manager. */
    method MirrorChange(a: Account, op: Op, diff: Amount, epoch: nat) returns (halted: bool)
      modifies this`powers
      ensures Mirror(old(View()), a, op, diff, epoch) == if halted then None else Some(powers)
      ensures halted <==> CallsHalt(old(View()), a, op, diff, epoch)
    {
      MirrorHalts(View(), a, op, diff, epoch);
      if !RepKnown(a, epoch + 1) { return true; }
      var rep, nextRep := RepFor(a, epoch + 1), RepFor(a, epoch + 2);
      ghost var moved := if nextRep != 0 && nextRep != rep
        then [Change(Opposite(op), rep, diff, epoch + 1), Change(op, nextRep, diff, epoch + 1)] else [];
      assert [] + moved == moved;
      halted := false;
      if rep != 0 {
        FirstChange(powers, reps, Change(op, rep, diff, epoch), moved);
        halted := UpdateUnlockedProxied(Change(op, rep, diff, epoch));
      }
      if !halted && nextRep != 0 && nextRep != rep {
        halted := UndoAndRedo(rep, nextRep, op, diff, epoch + 1);
      }
    }

    /** account_info::SetBalance. */
    method SetAccountBalance(id: nat, newBalance: Amount, epoch: nat, ghost now: nat) returns (halted: bool)
      requires id < |accounts|
      modifies this
      ensures SetBalance(old(View()), id, newBalance, epoch) == if halted then None else Some(View())
      ensures !halted && old(InStep(View(), now)) ==>
        (InStep(View(), Later(now, epoch)) <==> old(KeepsStep(View(), Balance(id, newBalance, epoch), now)))
    {
      ghost var w := View();
      var a := accounts[id];
      var op, diff: Amount, available;
      if newBalance > a.balance {
        op, diff := Add, newBalance - a.balance;
        available := (a.available + diff) % AMOUNT_LIMIT;
      } else {
        op, diff := Subtract, a.balance - newBalance;
        if diff > a.available { return true; }
        available := a.available - diff;
      }
      halted := MirrorChange(a, op, diff, epoch);
      accounts := accounts[id := a.(balance := newBalance, available := available)];
      if !halted && InStep(w, now) { CallExactly(w, View(), Balance(id, newBalance, epoch), now); }
    }

    /** account_info::SetAvailableBalance. */
    method SetAccountAvailable(id: nat, newAvailable: Amount, epoch: nat, ghost now: nat) returns (halted: bool)
      requires id < |accounts|
      modifies this
      ensures SetAvailable(old(View()), id, newAvailable, epoch) == if halted then None else Some(View())
      ensures !halted && old(InStep(View(), now)) ==>
        (InStep(View(), Later(now, epoch)) <==> old(KeepsStep(View(), Available(id, newAvailable, epoch), now)))
    {
      ghost var w := View();
      var a := accounts[id];
      var op, diff: Amount;
      if newAvailable > a.available {
        op, diff := Add, newAvailable - a.available;
      } else {
        op, diff := Subtract, a.available - newAvailable;
      }
      halted := MirrorChange(a, op, diff, epoch);
      accounts := accounts[id := a.(available := newAvailable)];
      if newAvailable > a.balance { halted := true; }
      if !halted && InStep(w, now) { CallExactly(w, View(), Available(id, newAvailable, epoch), now); }
    }

    /** The unlocked part of StakingManager::Stake for an account without staked funds, and UpdateRep. */
    method ChangeAccountRep(id: nat, target: Address, epoch: nat, ghost now: nat) returns (halted: bool)
      requires id < |accounts|
      modifies this
      ensures ChangeRep(old(View()), id, target, epoch) == if halted then None else Some(View())
      ensures !halted && old(InStep(View(), now)) ==>
        (InStep(View(), Later(now, epoch)) <==> old(KeepsStep(View(), Proxy(id, target, epoch), now)))
      ensures !halted ==> forall ep: nat :: ep > epoch ==>
        RepFor(accounts[id], ep) == if target != 0 then target else Outgoing(old(accounts[id]), epoch).rep
      ensures !halted ==> forall ep: nat :: ep <= epoch ==>
        RepFor(accounts[id], ep) == Outgoing(old(accounts[id]), epoch).rep
    {
      ghost var w := View();
      var a := accounts[id];
      halted := PassOn(a, target, epoch);
      if epoch + 1 < a.newRep.firstActive { halted := true; }
      accounts := accounts[id := UpdatedRep(a, target, epoch)];
      if !halted && InStep(w, now) { CallExactly(w, View(), Proxy(id, target, epoch), now); }
    }

    /** The new representative gets the available balance, the one of the next epoch loses it. */
    method PassOn(a: Account, target: Address, epoch: nat) returns (halted: bool)
      modifies this`powers
      ensures (if RepKnown(a, epoch + 1) then UpdateAll(old(powers), reps, ProxyCalls(a, target, epoch)) else None)
           == if halted then None else Some(powers)
    {
      halted := false;
      var rep := RepFor(a, epoch + 1);
      var add, sub := Change(Add, target, a.available, epoch), Change(Subtract, rep, a.available, epoch);
      ghost var rest := if rep != 0 then [sub] else [];
      assert [] + rest == rest;
      if target != 0 {
        FirstChange(powers, reps, add, rest);
        halted := UpdateUnlockedProxied(add);
      }
      if !halted && !RepKnown(a, epoch + 1) { return true; }
      if !halted && rep != 0 {
        OneChange(powers, reps, sub);
        halted := UpdateUnlockedProxied(sub);
      }
    }
  }
}
