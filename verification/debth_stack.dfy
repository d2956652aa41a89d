/** The script's nesting counter: a list of `(remaining, depth)` entries
    that counts down once per `advance` and drops the entries that reach
    the end of their block. */
module DebthStack {
  import opened Base

  /** An entry is `(remaining, depth)`. */
  type Entry = Pair

  datatype DebthStack = DebthStack(entries: seq<Entry>)

  function New(): (s: DebthStack)
    ensures Len(s) == 0
  {
    DebthStack([])
  }

  function Len(s: DebthStack): (n: nat)
    ensures n == |s.entries|
  {
    |s.entries|
  }

  /** `push(len)` records a block of `len` further steps. */
  function Push(s: DebthStack, len: nat): (r: DebthStack)
    ensures Len(r) == Len(s) + 1
    ensures r.entries[..Len(s)] == s.entries && r.entries[Len(s)] == (len, len)
  {
    DebthStack(s.entries + [(len, len)])
  }

  /** The number of entries that have counted down to zero. */
  function Zeros(es: seq<Entry>): (n: nat)
    ensures n <= |es|
  {
    if |es| == 0 then 0 else Zeros(es[..|es| - 1]) + (if es[|es| - 1].0 == 0 then 1 else 0)
  }

  /** One step of the filter-map: drop the finished entries and count one
      step off the others, keeping their order and depth.  The count is
      how many were dropped. */
  function AdvanceEntries(es: seq<Entry>): (r: (seq<Entry>, nat))
    ensures r.1 == Zeros(es) && |r.0| + r.1 == |es|
  {
    if |es| == 0 then ([], 0)
    else
      var last := es[|es| - 1];
      var rest := AdvanceEntries(es[..|es| - 1]);
      if last.0 == 0 then (rest.0, rest.1 + 1)
      else (rest.0 + [(last.0 - 1, last.1)], rest.1)
  }

  /** Nothing is invented: every surviving entry is an entry of the list
      before the step, one step lower. */
  lemma {:induction false} AdvanceOrigin(es: seq<Entry>)
    ensures forall k :: 0 <= k < |AdvanceEntries(es).0| ==>
      (AdvanceEntries(es).0[k].0 + 1, AdvanceEntries(es).0[k].1) in es
  {
    if |es| > 0 {
      var init := es[..|es| - 1];
      AdvanceOrigin(init);
      assert forall e :: e in init ==> e in es;
    }
  }

  /** `advance`. */
  function Advance(s: DebthStack): (r: (DebthStack, nat))
    ensures Len(r.0) == Len(s) - r.1
    ensures r.1 == Zeros(s.entries)
  {
    var (es, n) := AdvanceEntries(s.entries);
    (DebthStack(es), n)
  }

  /** An unfinished entry at position `i` moves forward past exactly the
      finished entries before it, one step further down. */
  lemma {:induction false} AdvancePosition(es: seq<Entry>, i: nat)
    requires i < |es| && es[i].0 > 0
    ensures i - Zeros(es[..i]) < |AdvanceEntries(es).0|
    ensures AdvanceEntries(es).0[i - Zeros(es[..i])] == (es[i].0 - 1, es[i].1)
  {
    var init := es[..|es| - 1];
    if i == |es| - 1 {
      assert es[..i] == init;
    } else {
      assert init[i] == es[i] && init[..i] == es[..i];
      AdvancePosition(init, i);
    }
  }

  /** Two unfinished entries keep their relative order. */
  lemma AdvanceKeepsOrder(es: seq<Entry>, i: nat, j: nat)
    requires i < j < |es| && es[i].0 > 0 && es[j].0 > 0
    ensures i - Zeros(es[..i]) < j - Zeros(es[..j])
  {
    ZerosPrefix(es, i, j);
  }

  lemma {:induction false} ZerosPrefix(es: seq<Entry>, i: nat, j: nat)
    requires i < j <= |es| && es[i].0 > 0
    ensures Zeros(es[..j]) <= Zeros(es[..i]) + (j - i - 1)
    decreases j
  {
    assert es[..j][..j - 1] == es[..j - 1];
    if j - 1 > i {
      ZerosPrefix(es, i, j - 1);
    } else {
      assert es[..j][j - 1] == es[i];
      assert es[..j - 1] == es[..i];
    }
  }

  /** `n` further `advance` calls. */
  function AdvanceN(es: seq<Entry>, n: nat): (r: seq<Entry>)
    ensures |r| <= |es|
    decreases n
  {
    if n == 0 then es else AdvanceN(AdvanceEntries(es).0, n - 1)
  }

  /** Where the entry at position `i` sits after `j` advances, as long as
      it has not counted down to zero: it is still there, `j` steps lower,
      with its depth. */
  function Track(es: seq<Entry>, i: nat, j: nat): (p: nat)
    requires i < |es| && j <= es[i].0
    ensures p < |AdvanceN(es, j)| && AdvanceN(es, j)[p] == (es[i].0 - j, es[i].1)
    decreases j
  {
    if j == 0 then i
    else
      AdvancePosition(es, i);
      var next := AdvanceEntries(es).0;
      var q := i - Zeros(es[..i]);
      assert next[q] == (es[i].0 - 1, es[i].1);
      assert AdvanceN(es, j) == AdvanceN(next, j - 1);
      var p := Track(next, q, j - 1);
      assert AdvanceN(next, j - 1)[p] == (next[q].0 - (j - 1), next[q].1);
      p
  }

  /** An entry pushed as `(k, k)` lives through `k` advances and is
      removed, and counted, by the next one. */
  lemma PushedEntryLifetime(s: DebthStack, k: nat)
    ensures var es := Push(s, k).entries;
      var p := Track(es, |s.entries|, k);
      && AdvanceN(es, k)[p] == (0, k)
      && p < |AdvanceN(es, k)|
      && Zeros(AdvanceN(es, k)) > 0
  {
    var es := Push(s, k).entries;
    var p := Track(es, |s.entries|, k);
    ZerosPositive(AdvanceN(es, k), p);
  }

  lemma {:induction false} ZerosPositive(es: seq<Entry>, p: nat)
    requires p < |es| && es[p].0 == 0
    ensures Zeros(es) > 0
    decreases |es|
  {
    if p < |es| - 1 {
      assert es[..|es| - 1][p] == es[p];
      ZerosPositive(es[..|es| - 1], p);
    }
  }

  /** The borrowed iterator: the entries and the next position. */
  datatype Iter = Iter(data: seq<Entry>, i: nat)

  function Iterate(s: DebthStack): (it: Iter)
    ensures it.data == s.entries && it.i == 0
  {
    Iter(s.entries, 0)
  }

  /** `next`: the entry at the position, if any; the position always moves on. */
  function Next(it: Iter): (r: (Option<Entry>, Iter))
    ensures r.1 == it.(i := it.i + 1)
    ensures r.0.Some? <==> it.i < |it.data|
    ensures r.0.Some? ==> r.0.value == it.data[it.i]
  {
    (if it.i < |it.data| then Some(it.data[it.i]) else None, it.(i := it.i + 1))
  }

  /** The results of `n` calls to `next`. */
  function Take(it: Iter, n: nat): (r: seq<Option<Entry>>)
    ensures |r| == n
    decreases n
  {
    if n == 0 then [] else var (x, it') := Next(it); [x] + Take(it', n - 1)
  }

  /** The iterator yields the entries in order, then `None` for ever. */
  lemma {:induction false} TakeYieldsEntries(it: Iter, n: nat)
    ensures forall k :: 0 <= k < n ==>
      Take(it, n)[k] == if it.i + k < |it.data| then Some(it.data[it.i + k]) else None
    decreases n
  {
    if n > 0 {
      TakeYieldsEntries(it.(i := it.i + 1), n - 1);
    }
  }
}
