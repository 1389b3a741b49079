/** The pure part of proc.c's fairness bookkeeping: `min` and the fairness
    baseline `get_min_acc`, stated over the contents of the two structures it
    queries. The priority queue's contents are a map from table slot to the key
    the process was inserted with; the running holder's contents are a map from
    table slot to that process's current accumulator. */
module Fairness {
  import opened ProcDefs

  /** `min` on long long values. */
  function Min(a: int, b: int): (r: int)
    ensures r <= a && r <= b
    ensures r == a || r == b
  {
    if a > b then b else a
  }

  /** The smallest value stored under a slot below n, or None when no slot
      below n is present. */
  function MinBelow(m: map<nat, int>, n: nat): (r: Option<int>)
    ensures r.None? <==> forall k :: k < n ==> k !in m
    ensures r.Some? ==> exists k :: k < n && k in m && m[k] == r.value
    ensures r.Some? ==> forall k :: k < n && k in m ==> r.value <= m[k]
    decreases n
  {
    if n == 0 then None
    else
      var rest := MinBelow(m, n - 1);
      if n - 1 !in m then rest
      else if rest.Some? && rest.value <= m[n - 1] then rest
      else Some(m[n - 1])
  }

  /** Reads an absent minimum as LLONG_MAX, as the queues leave their out
      parameter untouched when they are empty. */
  function OrMax(r: Option<int>): int
  {
    if r.Some? then r.value else LLONG_MAX
  }

  /** get_min_acc: the minimum of the queued keys and the running
      accumulators, each read as LLONG_MAX when its structure is empty, and
      0 when both are empty. `n` is the table size. */
  function Baseline(queued: map<nat, int>, running: map<nat, int>, n: nat): (b: int)
    ensures forall k :: k < n && k in queued ==> b <= queued[k]
    ensures forall k :: k < n && k in running ==> b <= running[k]
    ensures (forall k :: k < n ==> k !in queued && k !in running) ==> b == 0
    ensures (exists k :: k < n && k in queued && queued[k] <= LLONG_MAX) ||
            (exists k :: k < n && k in running && running[k] <= LLONG_MAX) ==>
              (exists k :: k < n && k in queued && queued[k] == b) ||
              (exists k :: k < n && k in running && running[k] == b)
  {
    var q := MinBelow(queued, n);
    var r := MinBelow(running, n);
    if q.Some? || r.Some? then Min(OrMax(q), OrMax(r)) else 0
  }

  /** Inserting a process into the priority queue with the current baseline as
      its key leaves the baseline unchanged. This is why every process woken by
      one wakeup1 scan under the priority policy gets the same accumulator. */
  lemma BaselineAfterPut(queued: map<nat, int>, running: map<nat, int>, n: nat, k: nat)
    requires k < n
    ensures Baseline(queued[k := Baseline(queued, running, n)], running, n) == Baseline(queued, running, n)
  {
    var b := Baseline(queued, running, n);
    var queued' := queued[k := b];
    var q' := MinBelow(queued', n);
    assert q'.Some? by { assert k in queued'; }
    assert q'.value == b by {
      assert q'.value <= queued'[k];
      var j :| j < n && j in queued' && queued'[j] == q'.value;
      if j != k {
        assert queued'[j] == queued[j];
      }
    }
    var r := MinBelow(running, n);
    if r.None? {
      var q := MinBelow(queued, n);
      if q.Some? {
        assert b == Min(q.value, LLONG_MAX);
      }
      assert b <= LLONG_MAX;
    } else {
      assert b <= r.value;
    }
  }
}
