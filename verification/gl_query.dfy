/** The GPU timer query: a three-state machine that brackets a stretch of
    GPU work and then polls for its elapsed time.  The GL calls are left
    out; the polled result is an input. */
module GlQuery {
  import opened Base

  datatype QState = Ready | Running | Ended

  /** A query object; `id` is the name the GPU hands out. */
  datatype Query = Query(id: U32, state: QState)

  /** `Query::new`. */
  function New(id: U32): (q: Query)
    ensures q.state == Ready && q.id == id
  {
    Query(id, Ready)
  }

  /** `start`: a ready query starts running; in any other state nothing
      happens. */
  function Start(q: Query): (r: Query)
    ensures r.id == q.id
    ensures q.state == Ready ==> r.state == Running
    ensures q.state != Ready ==> r == q
  {
    if q.state == Ready then q.(state := Running) else q
  }

  /** `end`: a running query ends; in any other state nothing happens. */
  function End(q: Query): (r: Query)
    ensures r.id == q.id
    ensures q.state == Running ==> r.state == Ended
    ensures q.state != Running ==> r == q
  {
    if q.state == Running then q.(state := Ended) else q
  }

  /** `get_time`, with `glResult` the value the GPU reports for the query
      (0 while it is not available).  Only an ended query with a non-zero
      result yields a time, and that resets it to ready. */
  function GetTime(q: Query, glResult: U32): (r: (Option<U32>, Query))
    ensures r.1.id == q.id
    ensures r.0.Some? <==> q.state == Ended && glResult > 0
    ensures r.0.Some? ==> r.0.value == glResult && r.0.value > 0 && r.1.state == Ready
    ensures r.0.None? ==> r.1 == q
  {
    if q.state == Ended then
      if glResult > 0 then (Some(glResult), q.(state := Ready)) else (None, q)
    else (None, q)
  }

  /** The calls a frame loop may make. */
  datatype Call = StartCall | EndCall | GetTimeCall(glResult: U32)

  /** One call: its reported time, if any, and the query after it. */
  function Step(q: Query, c: Call): (r: (Option<U32>, Query))
    ensures r.0.Some? ==> c.GetTimeCall? && r.0.value > 0
  {
    match c
    case StartCall => (None, Start(q))
    case EndCall => (None, End(q))
    case GetTimeCall(g) => GetTime(q, g)
  }

  /** The times reported by a run of calls, and the final query. */
  function Run(q: Query, calls: seq<Call>): (r: (seq<U32>, Query))
    ensures r.1.id == q.id
    decreases |calls|
  {
    if |calls| == 0 then ([], q)
    else
      var st := Step(q, calls[0]);
      var rest := Run(st.1, calls[1..]);
      (if st.0.Some? then [st.0.value] + rest.0 else rest.0, rest.1)
  }

  /** Every time a run reports is positive. */
  lemma {:induction false} RunTimesPositive(q: Query, calls: seq<Call>)
    ensures forall i :: 0 <= i < |Run(q, calls).0| ==> Run(q, calls).0[i] > 0
    decreases |calls|
  {
    if |calls| > 0 {
      RunTimesPositive(Step(q, calls[0]).1, calls[1..]);
    }
  }

  /** Number of calls in a run that end a running query. */
  function Ends(q: Query, calls: seq<Call>): (n: nat)
    ensures n <= |calls|
    decreases |calls|
  {
    if |calls| == 0 then 0
    else
      var q' := Step(q, calls[0]).1;
      (if calls[0].EndCall? && q.state == Running then 1 else 0) + Ends(q', calls[1..])
  }

  /** A time is reported at most once per measured stretch: a run from a
      non-ended query reports no more times than it ends queries, and one
      from an ended query at most one more. */
  lemma {:induction false} TimesBoundedByEnds(q: Query, calls: seq<Call>)
    ensures |Run(q, calls).0| <= Ends(q, calls) + (if q.state == Ended then 1 else 0)
    decreases |calls|
  {
    if |calls| > 0 {
      TimesBoundedByEnds(Step(q, calls[0]).1, calls[1..]);
    }
  }

  /** One frame of measurement: start, end, then a poll that sees the
      result reports it and leaves the query ready for the next frame. */
  lemma FrameCycle(id: U32, t: U32)
    requires t > 0
    ensures Run(New(id), [StartCall, EndCall, GetTimeCall(t)]).0 == [t]
    ensures Run(New(id), [StartCall, EndCall, GetTimeCall(t)]).1 == New(id)
  {
    var c3 := [GetTimeCall(t)];
    var c2 := [EndCall] + c3;
    var c1 := [StartCall] + c2;
    assert c3[1..] == [] && c2[1..] == c3 && c1[1..] == c2;
    assert Run(Query(id, Ready), c3[1..]).0 == [];
    assert Run(Query(id, Ended), c3).0 == [t] && Run(Query(id, Ended), c3).1 == Query(id, Ready);
    assert Run(Query(id, Running), c2).0 == [t] && Run(Query(id, Running), c2).1 == Query(id, Ready);
    assert c1 == [StartCall, EndCall, GetTimeCall(t)];
  }
}
