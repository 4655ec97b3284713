/**
  A whole list of signatures: batches of up to 64, single verification of what a batch does not settle, and the
  two bits of the result.
 */
module BatchRun {
  import opened Arith
  import opened Words
  import opened BatchHeap
  import opened BatchScalars
  import opened BatchEquation
  import opened BatchVerdict
  import opened BatchVerify
  import BC = BosCarter
  import ScalarMult

  const MAX_BATCH: nat := 64

  /** A batch that comes to a verdict, and is found neutral if the ladder is faithful. */
  ghost predicate Passes(es: seq<Entry>, g: Group)
    requires Lawful(g) && AllSized(es, |g.base|)
  {
    |es| > 3 && Decoded(es) && Neutral(SumOf(es, g, Taken(es)), g.orders)
  }

  /** The ladder is faithful on the batch, if it comes to that. */
  ghost predicate Known(es: seq<Entry>)
  {
    |es| > 3 && Decoded(es) ==> Faithful(Survivor(es))
  }

  /** The verdict on the batch, if it comes to one, is that of its equation. */
  ghost predicate Decided(es: seq<Entry>)
  {
    |es| > 3 && Decoded(es) ==> Decisive(es)
  }

  /** A batch that comes to a verdict and fails. */
  ghost predicate Fails(es: seq<Entry>, g: Group)
    requires Lawful(g) && AllSized(es, |g.base|)
  {
    |es| > 3 && Decoded(es) && !Passes(es, g)
  }

  lemma PassesByEquation(es: seq<Entry>, g: Group)
    requires Lawful(g) && AllSized(es, |g.base|) && Decided(es)
    ensures Known(es) && (Passes(es, g) <==> |es| > 3 && Decoded(es) && Balanced(es, g))
  {
    if |es| > 3 && Decoded(es) { DecisiveBalanced(es, g); }
  }

  /** The signatures lo..hi-1 are all taken as valid if their batch passes, and each verified alone if it does not.
      Where the ladder is not faithful it is one or the other. */
  ghost predicate Settled(es: seq<Entry>, valid: seq<bool>, lo: nat, hi: nat, g: Group)
    requires Lawful(g) && AllSized(es, |g.base|)
  {
    && lo <= hi <= |es| == |valid|
    && (AllValid(valid, lo, hi) || AllAlone(es, valid, lo, hi, g))
    && (|es[lo..hi]| <= 3 || !Decoded(es[lo..hi]) ==> AllAlone(es, valid, lo, hi, g))
    && (Known(es[lo..hi]) ==> if Passes(es[lo..hi], g) then AllValid(valid, lo, hi) else AllAlone(es, valid, lo, hi, g))
  }

  ghost predicate AllValid(valid: seq<bool>, lo: nat, hi: nat)
    requires lo <= hi <= |valid|
  {
    forall i :: lo <= i < hi ==> valid[i]
  }

  ghost predicate AllAlone(es: seq<Entry>, valid: seq<bool>, lo: nat, hi: nat, g: Group)
    requires Lawful(g) && AllSized(es, |g.base|) && lo <= hi <= |es| == |valid|
  {
    forall i :: lo <= i < hi ==> valid[i] == Single(es[i], g)
  }

  /** Signatures each accepted alone, with wrapped keys that have no part modulo 8. */
  ghost predicate Good(es: seq<Entry>, g: Group)
    requires Lawful(g) && AllSized(es, |g.base|)
  {
    && (forall i :: 0 <= i < |es| ==> Single(es[i], g))
    && (|es| > 3 && Decoded(es) ==> Unwrapped(es, g))
  }

  lemma GoodPasses(es: seq<Entry>, g: Group)
    requires Lawful(g) && AllSized(es, |g.base|) && Good(es, g) && Decided(es)
    ensures !Fails(es, g)
  {
    if |es| > 3 && Decoded(es) {
      assert AllGenuine(es, g);
      GenuineBalanced(es, g);
      PassesByEquation(es, g);
    }
  }

  // ---------- the groups of a list ----------

  /** Where group `q` ends. */
  function GroupEnd(n: nat, q: nat): nat { if (q + 1) * MAX_BATCH < n then (q + 1) * MAX_BATCH else n }

  lemma GroupOf(i: nat, n: nat)
    requires i < n
    ensures var q := i / MAX_BATCH; q * MAX_BATCH <= i < GroupEnd(n, q) <= n
  {
    DivMod(i, MAX_BATCH);
  }

  /** The signatures of group `q`. */
  ghost function GroupAt(es: seq<Entry>, q: nat): seq<Entry>
  {
    if q * MAX_BATCH <= |es| then es[q * MAX_BATCH..GroupEnd(|es|, q)] else []
  }

  ghost predicate GroupSettled(es: seq<Entry>, valid: seq<bool>, q: nat, g: Group)
    requires Lawful(g) && AllSized(es, |g.base|)
  {
    q * MAX_BATCH <= |es| ==> Settled(es, valid, q * MAX_BATCH, GroupEnd(|es|, q), g)
  }

  ghost predicate GroupFails(es: seq<Entry>, q: nat, g: Group)
    requires Lawful(g) && AllSized(es, |g.base|)
  {
    Fails(GroupAt(es, q), g)
  }

  ghost predicate GroupDecided(es: seq<Entry>, q: nat) { Decided(GroupAt(es, q)) }

  ghost predicate GroupKnown(es: seq<Entry>, q: nat) { Known(GroupAt(es, q)) }

  ghost predicate GroupGood(es: seq<Entry>, q: nat, g: Group)
    requires Lawful(g) && AllSized(es, |g.base|)
  {
    Good(GroupAt(es, q), g)
  }

  // ---------- the run ----------

  /** Each signature lo..hi-1 alone; `bad` collects whether one was refused. */
  method Singles(es: seq<Entry>, g: Group, table: seq<ScalarMult.Element>, valid: array<bool>, lo: nat, hi: nat,
                 bad: bool)
    returns (bad': bool)
    requires lo <= hi <= |es| == valid.Length && Lawful(g) && AllSized(es, |g.base|)
    requires ScalarMult.OddMultiplesOfB(table)
    modifies valid
    ensures forall i :: lo <= i < hi ==> valid[i] == Single(es[i], g)
    ensures forall i :: 0 <= i < lo || hi <= i < |es| ==> valid[i] == old(valid[i])
    ensures bad' <==> bad || exists i :: lo <= i < hi && !valid[i]
  {
    bad' := bad;
    var i := lo;
    while i < hi
      invariant lo <= i <= hi
      invariant forall k :: lo <= k < i ==> valid[k] == Single(es[k], g)
      invariant forall k :: 0 <= k < lo || i <= k < |es| ==> valid[k] == old(valid[k])
      invariant bad' <==> bad || exists k :: lo <= k < i && !valid[k]
    {
      var ok := SignOpen(es[i], g, table);
      valid[i] := ok;
      bad' := bad' || !valid[i];
      i := i + 1;
    }
  }

  /** One round of the loop of ed25519_sign_open_batch.  `bad` and `retried` are the two bits of the result. */
  method OneBatch(batch: Batch, es: seq<Entry>, g: Group, table: seq<ScalarMult.Element>, valid: array<bool>, lo: nat,
                  hi: nat, bad: bool, retried: bool)
    returns (bad': bool, retried': bool)
    requires batch.Shape() && batch.heap.Length >= 2 * MAX_BATCH + 1 && Lawful(g) && AllSized(es, |g.base|)
    requires BC.Vectors(batch.points[..], |g.base|) && ScalarMult.OddMultiplesOfB(table)
    requires lo <= hi <= |es| == valid.Length && 3 < hi - lo <= MAX_BATCH && forall i :: lo <= i < hi ==> valid[i]
    modifies batch, batch.heap, batch.scalars, batch.points, valid
    ensures batch.Shape() && BC.Vectors(batch.points[..], |g.base|)
    ensures Settled(es, valid[..], lo, hi, g)
    ensures forall i :: 0 <= i < lo || hi <= i < |es| ==> valid[i] == old(valid[i])
    ensures bad' <==> bad || exists i :: lo <= i < hi && !valid[i]
    ensures Decided(es[lo..hi]) && Decoded(es[lo..hi]) && Balanced(es[lo..hi], g) ==> AllValid(valid[..], lo, hi)
    ensures Decided(es[lo..hi]) && !(Decoded(es[lo..hi]) && Balanced(es[lo..hi], g)) ==>
      AllAlone(es, valid[..], lo, hi, g)
    ensures Known(es[lo..hi]) ==> (retried' <==> retried || Fails(es[lo..hi], g))
  {
    var group := es[lo..hi];
    if Decided(group) { PassesByEquation(group, g); }
    var decoded, passed := CheckBatch(batch, group, g);
    bad', retried' := bad, retried || (decoded && !passed);
    if !passed {
      bad' := Singles(es, g, table, valid, lo, hi, bad);
    }
  }

  /** The marks that `rounds` rounds have left, up to `lo`. */
  ghost predicate Marked(es: seq<Entry>, valid: seq<bool>, lo: nat, rounds: nat, bad: bool, g: Group)
    requires Lawful(g) && AllSized(es, |g.base|)
  {
    && |valid| == |es| && lo <= |es| && (lo == rounds * MAX_BATCH || lo == |es|) && lo <= rounds * MAX_BATCH
    && (forall q: nat :: q < rounds ==> GroupSettled(es, valid, q, g))
    && (forall k :: lo <= k < |es| ==> valid[k])
    && (bad <==> exists k :: 0 <= k < lo && !valid[k])
  }

  /** What `retried` says after `rounds` rounds. */
  ghost predicate Retried(es: seq<Entry>, rounds: nat, retried: bool, g: Group)
    requires Lawful(g) && AllSized(es, |g.base|)
  {
    (forall q: nat :: GroupKnown(es, q)) ==> (retried <==> exists q: nat :: q < rounds && GroupFails(es, q, g))
  }

  ghost predicate Progress(es: seq<Entry>, valid: seq<bool>, lo: nat, rounds: nat, bad: bool, retried: bool, g: Group)
    requires Lawful(g) && AllSized(es, |g.base|)
  {
    Marked(es, valid, lo, rounds, bad, g) && Retried(es, rounds, retried, g)
  }

  lemma SettledKept(es: seq<Entry>, valid: seq<bool>, valid': seq<bool>, q: nat, lo: nat, g: Group)
    requires Lawful(g) && AllSized(es, |g.base|) && GroupSettled(es, valid, q, g) && GroupEnd(|es|, q) <= lo
    requires |valid| == |valid'| == |es| && forall i :: 0 <= i < lo && i < |es| ==> valid'[i] == valid[i]
    ensures GroupSettled(es, valid', q, g)
  {
  }

  lemma MarkedOn(es: seq<Entry>, valid: seq<bool>, valid': seq<bool>, lo: nat, rounds: nat, bad: bool, bad': bool,
                 g: Group)
    requires Lawful(g) && AllSized(es, |g.base|) && Marked(es, valid, lo, rounds, bad, g) && lo < |es|
    requires |valid'| == |es| && Settled(es, valid', lo, GroupEnd(|es|, rounds), g)
    requires forall i :: 0 <= i < lo || GroupEnd(|es|, rounds) <= i < |es| ==> valid'[i] == valid[i]
    requires bad' <==> bad || exists i :: lo <= i < GroupEnd(|es|, rounds) && !valid'[i]
    ensures Marked(es, valid', GroupEnd(|es|, rounds), rounds + 1, bad', g)
  {
    var hi := GroupEnd(|es|, rounds);
    forall q: nat | q < rounds + 1
      ensures GroupSettled(es, valid', q, g)
    {
      if q < rounds {
        SettledKept(es, valid, valid', q, lo, g);
      } else {
        assert q * MAX_BATCH == lo;
      }
    }
    BadOn(valid, valid', lo, hi, bad, bad');
  }

  lemma BadOn(valid: seq<bool>, valid': seq<bool>, lo: nat, hi: nat, bad: bool, bad': bool)
    requires lo <= hi <= |valid| == |valid'| && forall i :: 0 <= i < lo ==> valid'[i] == valid[i]
    requires bad <==> exists k :: 0 <= k < lo && !valid[k]
    requires bad' <==> bad || exists i :: lo <= i < hi && !valid'[i]
    ensures bad' <==> exists k :: 0 <= k < hi && !valid'[k]
  {
  }

  lemma RetriedOn(es: seq<Entry>, rounds: nat, retried: bool, retried': bool, g: Group)
    requires Lawful(g) && AllSized(es, |g.base|) && Retried(es, rounds, retried, g)
    requires GroupKnown(es, rounds) ==> (retried' <==> retried || GroupFails(es, rounds, g))
    ensures Retried(es, rounds + 1, retried', g)
  {
    if forall q: nat :: GroupKnown(es, q) {
      assert GroupKnown(es, rounds);
    }
  }

  method NextBatch(batch: Batch, es: seq<Entry>, g: Group, table: seq<ScalarMult.Element>, valid: array<bool>, lo: nat,
                   ghost rounds: nat, bad: bool, retried: bool)
    returns (hi: nat, bad': bool, retried': bool)
    requires batch.Shape() && batch.heap.Length >= 2 * MAX_BATCH + 1 && Lawful(g) && AllSized(es, |g.base|)
    requires BC.Vectors(batch.points[..], |g.base|) && ScalarMult.OddMultiplesOfB(table)
    requires valid.Length == |es| && |es| - lo > 3 && Progress(es, valid[..], lo, rounds, bad, retried, g)
    modifies batch, batch.heap, batch.scalars, batch.points, valid
    ensures batch.Shape() && BC.Vectors(batch.points[..], |g.base|)
    ensures lo < hi && Progress(es, valid[..], hi, rounds + 1, bad', retried', g)
  {
    ghost var was := valid[..];
    hi := if |es| - lo > MAX_BATCH then lo + MAX_BATCH else |es|;
    bad', retried' := OneBatch(batch, es, g, table, valid, lo, hi, bad, retried);
    MarkedOn(es, was, valid[..], lo, rounds, bad, bad', g);
    RetriedOn(es, rounds, retried, retried', g);
  }

  /** At most three signatures are left over. */
  method LastFew(es: seq<Entry>, g: Group, table: seq<ScalarMult.Element>, valid: array<bool>, lo: nat,
                 ghost rounds: nat, bad: bool, ghost retried: bool)
    returns (bad': bool)
    requires Lawful(g) && AllSized(es, |g.base|) && valid.Length == |es| && lo < |es| <= lo + 3
    requires ScalarMult.OddMultiplesOfB(table) && Progress(es, valid[..], lo, rounds, bad, retried, g)
    modifies valid
    ensures Progress(es, valid[..], |es|, rounds + 1, bad', retried, g)
  {
    ghost var was := valid[..];
    bad' := Singles(es, g, table, valid, lo, |es|, bad);
    MarkedOn(es, was, valid[..], lo, rounds, bad, bad', g);
    RetriedOn(es, rounds, retried, retried, g);
  }

  method AllBatches(batch: Batch, es: seq<Entry>, g: Group, table: seq<ScalarMult.Element>, valid: array<bool>)
    returns (bad: bool, retried: bool, ghost rounds: nat)
    requires batch.Shape() && batch.heap.Length >= 2 * MAX_BATCH + 1 && Lawful(g) && AllSized(es, |g.base|)
    requires BC.Vectors(batch.points[..], |g.base|) && ScalarMult.OddMultiplesOfB(table)
    requires valid.Length == |es| && forall i :: 0 <= i < |es| ==> valid[i]
    modifies batch, batch.heap, batch.scalars, batch.points, valid
    ensures Progress(es, valid[..], |es|, rounds, bad, retried, g)
  {
    bad, retried := false, false;
    var lo := 0;
    rounds := 0;
    while |es| - lo > 3
      invariant batch.Shape() && BC.Vectors(batch.points[..], |g.base|)
      invariant Progress(es, valid[..], lo, rounds, bad, retried, g)
      decreases |es| - lo
    {
      lo, bad, retried := NextBatch(batch, es, g, table, valid, lo, rounds, bad, retried);
      rounds := rounds + 1;
    }
    if lo < |es| {
      bad := LastFew(es, g, table, valid, lo, rounds, bad, retried);
      rounds := rounds + 1;
    }
  }

  /** No signature that verifies alone is refused, whatever the coefficients; and one that does not is accepted
      only in a batch that passes, because its S is too large, its R is not canonical, or it is not genuine. */
  lemma NeverRefused(es: seq<Entry>, valid: seq<bool>, g: Group, i: nat)
    requires Lawful(g) && AllSized(es, |g.base|) && i < |es| == |valid|
    requires forall q: nat :: GroupSettled(es, valid, q, g)
    ensures Single(es[i], g) ==> valid[i]
    ensures valid[i] && !Single(es[i], g) ==>
      && (LE(es[i].s) >= S_BOUND || !es[i].canonical || !Genuine(es[i], g))
      && |GroupAt(es, i / MAX_BATCH)| > 3 && Decoded(GroupAt(es, i / MAX_BATCH))
      && (GroupKnown(es, i / MAX_BATCH) ==> Passes(GroupAt(es, i / MAX_BATCH), g))
  {
    var q := i / MAX_BATCH;
    GroupOf(i, |es|);
    assert GroupSettled(es, valid, q, g);
  }

  /** When every signature has been settled. */
  lemma Finished(es: seq<Entry>, valid: seq<bool>, rounds: nat, bad: bool, retried: bool, g: Group)
    requires Lawful(g) && AllSized(es, |g.base|) && Progress(es, valid, |es|, rounds, bad, retried, g)
    ensures forall q: nat :: GroupSettled(es, valid, q, g)
    ensures bad <==> exists i :: 0 <= i < |es| && !valid[i]
    ensures (forall q: nat :: GroupKnown(es, q)) ==> (retried <==> exists q: nat :: GroupFails(es, q, g))
    ensures (forall q: nat :: GroupDecided(es, q)) && (forall q: nat :: GroupGood(es, q, g)) ==> !bad && !retried
  {
    forall q: nat
      ensures GroupSettled(es, valid, q, g) && (q >= rounds ==> !GroupFails(es, q, g))
    {
      if q >= rounds && q * MAX_BATCH <= |es| { assert GroupEnd(|es|, q) == |es| == q * MAX_BATCH; }
    }
    if (forall q: nat :: GroupDecided(es, q)) && (forall q: nat :: GroupGood(es, q, g)) { AllGood(es, valid, g); }
  }

  /** In a group whose verdict is that of its equation, the marks are all set if it holds and those of single
      verification if it does not. */
  lemma SettledByEquation(es: seq<Entry>, valid: seq<bool>, q: nat, i: nat, g: Group)
    requires Lawful(g) && AllSized(es, |g.base|) && |es| == |valid| && GroupSettled(es, valid, q, g)
    requires q * MAX_BATCH <= i < GroupEnd(|es|, q) && GroupDecided(es, q)
    ensures var group := GroupAt(es, q);
      valid[i] <==> (|group| > 3 && Decoded(group) && Balanced(group, g)) || Single(es[i], g)
  {
    PassesByEquation(GroupAt(es, q), g);
  }

  /** Groups are of 64, the last of what is left. */
  lemma GroupSizes(es: seq<Entry>, q: nat)
    requires 64 * q < |es|
    ensures GroupAt(es, q) == if 64 * q + 64 <= |es| then es[64 * q..64 * q + 64] else es[64 * q..]
  {
  }

  /** A list that is good in every group is accepted without a retry. */
  lemma AllGood(es: seq<Entry>, valid: seq<bool>, g: Group)
    requires Lawful(g) && AllSized(es, |g.base|) && |es| == |valid| && forall q: nat :: GroupSettled(es, valid, q, g)
    requires (forall q: nat :: GroupGood(es, q, g)) && (forall q: nat :: GroupDecided(es, q))
    ensures forall i :: 0 <= i < |es| ==> valid[i]
    ensures forall q: nat :: GroupKnown(es, q) && !GroupFails(es, q, g)
  {
    forall i | 0 <= i < |es|
      ensures valid[i]
    {
      GoodIsSingle(es, g, i);
      NeverRefused(es, valid, g, i);
    }
    forall q: nat
      ensures GroupKnown(es, q) && !GroupFails(es, q, g)
    {
      assert GroupGood(es, q, g) && GroupDecided(es, q);
      PassesByEquation(GroupAt(es, q), g);
      GoodPasses(GroupAt(es, q), g);
    }
  }

  lemma GoodIsSingle(es: seq<Entry>, g: Group, i: nat)
    requires Lawful(g) && AllSized(es, |g.base|) && i < |es| && forall q: nat :: GroupGood(es, q, g)
    ensures Single(es[i], g)
  {
    var q := i / MAX_BATCH;
    GroupOf(i, |es|);
    assert GroupGood(es, q, g);
    assert GroupAt(es, q)[i - q * MAX_BATCH] == es[i];
  }

  method SetAll(valid: array<bool>)
    modifies valid
    ensures forall k :: 0 <= k < valid.Length ==> valid[k]
  {
    var i := 0;
    while i < valid.Length
      invariant 0 <= i <= valid.Length && forall k :: 0 <= k < i ==> valid[k]
    {
      valid[i] := true;
      i := i + 1;
    }
  }

  function Bits(bad: bool, retried: bool): (ret: nat)
    ensures ret <= 3 && (ret % 2 == 1 <==> bad) && (ret / 2 == 1 <==> retried) && (ret == 0 <==> !bad && !retried)
  {
    (if bad then 1 else 0) + (if retried then 2 else 0)
  }

  /** ed25519_sign_open_batch: `ret` is 1 for a refused signature plus 2 for a batch that did not pass. */
  method SignOpenBatch(batch: Batch, es: seq<Entry>, g: Group, table: seq<ScalarMult.Element>, valid: array<bool>)
    returns (ret: nat)
    requires batch.Shape() && batch.heap.Length >= 2 * MAX_BATCH + 1 && Lawful(g) && AllSized(es, |g.base|)
    requires BC.Vectors(batch.points[..], |g.base|) && ScalarMult.OddMultiplesOfB(table) && valid.Length == |es|
    modifies batch, batch.heap, batch.scalars, batch.points, valid
    ensures forall q: nat :: GroupSettled(es, valid[..], q, g)
    ensures ret <= 3 && (ret % 2 == 1 <==> exists i :: 0 <= i < |es| && !valid[i])
    ensures (forall q: nat :: GroupKnown(es, q)) ==> (ret / 2 == 1 <==> exists q: nat :: GroupFails(es, q, g))
    ensures (forall q: nat :: GroupDecided(es, q)) && (forall q: nat :: GroupGood(es, q, g)) ==> ret == 0
  {
    SetAll(valid);
    var bad, retried;
    ghost var rounds;
    bad, retried, rounds := AllBatches(batch, es, g, table, valid);
    Finished(es, valid[..], rounds, bad, retried, g);
    ret := Bits(bad, retried);
  }
}
