/** The decode search stage of the GEM3 search pipeline
    (tools/gem3-mapper/src/search_pipeline/search_stage_decode.c): a fixed
    vector of buffers, filled in order while sending and drained in the same
    order while retrieving. Whether a search fits a buffer, the device copy
    and the decoding itself are outside the stage; the fit test is a
    parameter, and a buffer is the sequence of searches added to it. */
module DecodeStage {

  datatype Search = Search(id: nat)

  /** `search_group_buffer_phase_sending` / `_retrieving`. */
  datatype Mode = Sending | Retrieving

  /** A buffer handed to the device, or the results of one fetched back. */
  datatype Event = ToDevice(buffer: nat) | FromDevice(buffer: nat)

  /** The stage and its iterator. `log` records the transfers since the last clear. */
  datatype Stage = Stage(mode: Mode, buffers: seq<seq<Search>>, current: nat,
                         searchIdx: nat, numSearches: nat, log: seq<Event>)

  /** `search_stage_decode_buffer_fits`: whether a group of searches (one, or
      the two ends of a pair) fits a buffer already holding some searches. */
  type Fits = (seq<Search>, seq<Search>) -> bool

  /** The states the stage moves through: there is a buffer; while sending
      the iterator is on a buffer; while retrieving it is on a buffer, or one
      past the last with no search pending, and knows the buffer's size. */
  predicate Inv(st: Stage)
  {
    && |st.buffers| >= 1
    && (st.mode == Sending ==> st.current < |st.buffers|)
    && (st.mode == Retrieving ==>
          && st.current <= |st.buffers|
          && st.searchIdx <= st.numSearches
          && (st.current < |st.buffers| ==> st.numSearches == |st.buffers[st.current]|)
          && (st.current == |st.buffers| ==> st.searchIdx == st.numSearches))
  }

  // ---------------------------------------------------------------------------
  // Setup
  // ---------------------------------------------------------------------------

  /** `search_stage_decode_clear`: sending mode, every buffer emptied, the
      iterator back on buffer 0; the search counters are left alone. */
  function Clear(st: Stage): (r: Stage)
    ensures r.mode == Sending && r.current == 0 && r.log == []
    ensures |r.buffers| == |st.buffers| && forall k :: 0 <= k < |r.buffers| ==> r.buffers[k] == []
    ensures r.searchIdx == st.searchIdx && r.numSearches == st.numSearches
  {
    st.(mode := Sending, buffers := seq(|st.buffers|, _ => []), current := 0, log := [])
  }

  /** `search_stage_decode_new`: `numBuffers` buffers, then a clear. */
  function New(numBuffers: nat): (r: Stage)
    ensures r.mode == Sending && r.current == 0 && |r.buffers| == numBuffers
    ensures forall k :: 0 <= k < numBuffers ==> r.buffers[k] == []
  {
    Clear(Stage(Sending, seq(numBuffers, _ => []), 0, 0, 0, []))
  }

  // ---------------------------------------------------------------------------
  // Sending
  // ---------------------------------------------------------------------------

  /** Transfers of buffers `from` up to (not including) `to`, in order. */
  function Transfers(from: nat, to: nat): (t: seq<Event>)
    requires from <= to
    ensures |t| == to - from && forall i :: 0 <= i < |t| ==> t[i] == ToDevice(from + i)
  {
    seq(to - from, i requires 0 <= i < to - from => ToDevice(from + i))
  }

  /** The occupancy loop: while the group does not fit the current buffer
      and a later one exists, send the current buffer and move on. */
  function Seek(st: Stage, group: seq<Search>, fits: Fits): (r: Stage)
    requires st.mode == Sending && st.current < |st.buffers|
    ensures r.mode == Sending && r.buffers == st.buffers && st.current <= r.current < |st.buffers|
    ensures r.searchIdx == st.searchIdx && r.numSearches == st.numSearches
    ensures r.log == st.log + Transfers(st.current, r.current)
    ensures forall k :: st.current <= k < r.current ==> !fits(st.buffers[k], group)
    ensures fits(st.buffers[r.current], group) || r.current == |st.buffers| - 1
    decreases |st.buffers| - st.current
  {
    if fits(st.buffers[st.current], group) then st
    else if st.current < |st.buffers| - 1 then
      Seek(st.(current := st.current + 1, log := st.log + [ToDevice(st.current)]), group, fits)
    else st
  }

  datatype SendResult = SendResult(accepted: bool, stage: Stage)

  /** Add a group of searches to the first buffer, from the current one on,
      that fits it; if none does, the iterator is left on the last buffer
      and nothing is added. */
  function Send(st: Stage, group: seq<Search>, fits: Fits): (r: SendResult)
    requires Inv(st) && st.mode == Sending
    ensures Inv(r.stage) && r.stage.mode == Sending
    ensures r.accepted <==> exists k :: st.current <= k < |st.buffers| && fits(st.buffers[k], group)
    ensures st.current <= r.stage.current < |st.buffers|
    ensures forall k :: st.current <= k < r.stage.current ==> !fits(st.buffers[k], group)
    ensures r.accepted ==> r.stage.buffers == st.buffers[r.stage.current := st.buffers[r.stage.current] + group]
    ensures !r.accepted ==> r.stage.buffers == st.buffers && r.stage.current == |st.buffers| - 1
    ensures r.stage.log == st.log + Transfers(st.current, r.stage.current)
  {
    var s := Seek(st, group, fits);
    if fits(s.buffers[s.current], group) then
      SendResult(true, s.(buffers := s.buffers[s.current := s.buffers[s.current] + group]))
    else
      SendResult(false, s)
  }

  /** `search_stage_decode_send_se_search`. */
  function SendSe(st: Stage, search: Search, fits: Fits): (r: SendResult)
    requires Inv(st) && st.mode == Sending
    ensures st.current <= r.stage.current < |st.buffers| && |r.stage.buffers| == |st.buffers|
    ensures r.accepted ==> r.stage.buffers[r.stage.current] == st.buffers[r.stage.current] + [search]
    ensures r.accepted <==> exists k :: st.current <= k < |st.buffers| && fits(st.buffers[k], [search])
  {
    Send(st, [search], fits)
  }

  /** `search_stage_decode_send_pe_search`: both ends go to the same buffer, end 1 first. */
  function SendPe(st: Stage, end1: Search, end2: Search, fits: Fits): (r: SendResult)
    requires Inv(st) && st.mode == Sending
    ensures st.current <= r.stage.current < |st.buffers| && |r.stage.buffers| == |st.buffers|
    ensures r.accepted ==> r.stage.buffers[r.stage.current] == st.buffers[r.stage.current] + [end1, end2]
    ensures r.accepted <==> exists k :: st.current <= k < |st.buffers| && fits(st.buffers[k], [end1, end2])
  {
    Send(st, [end1, end2], fits)
  }

  // ---------------------------------------------------------------------------
  // Retrieving
  // ---------------------------------------------------------------------------

  /** `search_stage_decode_retrieve_begin`: switch to retrieving, send the
      buffer being filled, and fetch buffer 0 with its search counter reset. */
  function RetrieveBegin(st: Stage): (r: Stage)
    requires Inv(st) && st.mode == Sending
    ensures Inv(r) && r.mode == Retrieving && r.buffers == st.buffers
    ensures r.current == 0 && r.searchIdx == 0 && r.numSearches == |st.buffers[0]|
    ensures r.log == st.log + [ToDevice(st.current), FromDevice(0)]
  {
    st.(mode := Retrieving, log := st.log + [ToDevice(st.current), FromDevice(0)],
        current := 0, searchIdx := 0, numSearches := |st.buffers[0]|)
  }

  /** `search_stage_decode_retrieve_finished`. */
  predicate RetrieveFinished(st: Stage)
  {
    st.mode == Sending || (st.current == |st.buffers| && st.searchIdx == st.numSearches)
  }

  /** What one retrieval yields: a search; the end of the iteration; or, on a
      call made after the last buffer was passed, a read beyond the buffers. */
  datatype Next = Got(search: Search) | Exhausted | OutOfRange

  datatype Step = Step(next: Next, stage: Stage)

  /** `search_stage_decode_retrieve_next`. */
  function RetrieveNext(st: Stage): (r: Step)
    requires Inv(st)
    ensures Inv(r.stage) && r.stage.mode == Retrieving && r.stage.buffers == st.buffers
    ensures r.next.OutOfRange? <==> st.mode == Retrieving && st.current == |st.buffers|
    ensures st.mode == Retrieving && r.next.Got? ==>
              || (r.stage.current == st.current && r.stage.searchIdx == st.searchIdx + 1)
              || (st.current < r.stage.current < |st.buffers|)
  {
    var s := if st.mode == Sending then RetrieveBegin(st) else st;
    if s.searchIdx == s.numSearches then
      if s.current == |s.buffers| then Step(OutOfRange, s)
      else
        var k := s.current + 1;
        if k == |s.buffers| then Step(Exhausted, s.(current := k))
        else
          var t := s.(current := k, searchIdx := 0, numSearches := |s.buffers[k]|);
          if t.numSearches == 0 then Step(Exhausted, t)
          else Step(Got(s.buffers[k][0]), t.(searchIdx := 1, log := t.log + [FromDevice(k)]))
    else
      Step(Got(s.buffers[s.current][s.searchIdx]), s.(searchIdx := s.searchIdx + 1))
  }

  /** Retrieval is finished while sending, and while retrieving exactly when
      the iterator has passed the last buffer, which is when a further
      `retrieve_next` would read beyond the buffers. A retrieval that stops at
      an empty buffer before the last one does not finish it. */
  lemma FinishedIffPastLast(st: Stage)
    requires Inv(st)
    ensures st.mode == Sending ==> RetrieveFinished(st)
    ensures st.mode == Retrieving ==> (RetrieveFinished(st) <==> st.current == |st.buffers|)
    ensures st.mode == Retrieving ==> (RetrieveFinished(st) <==> RetrieveNext(st).next.OutOfRange?)
    ensures RetrieveNext(st).next.Exhausted? ==>
              (RetrieveFinished(RetrieveNext(st).stage) <==> RetrieveNext(st).stage.current == |st.buffers|)
  {
  }

  /** `search_stage_decode_retrieve_se_search`: the next search, if any. */
  function RetrieveSe(st: Stage): (r: Step)
    requires Inv(st)
    ensures r.next.Got? ==> exists k, i :: 0 <= k < |st.buffers| && 0 <= i < |st.buffers[k]| && r.next.search == st.buffers[k][i]
  {
    var r := RetrieveNext(st);
    if r.next.Got? then
      RetrievedFromBuffer(st);
      r
    else r
  }

  /** Every retrieved search is one a buffer holds, at the position the iterator passed. */
  lemma RetrievedFromBuffer(st: Stage)
    requires Inv(st)
    ensures var r := RetrieveNext(st);
            r.next.Got? ==>
              && 0 < r.stage.searchIdx <= |st.buffers[r.stage.current]|
              && r.next.search == st.buffers[r.stage.current][r.stage.searchIdx - 1]
  {
  }

  /** What a paired retrieval yields. */
  datatype PairOutcome = Paired(end1: Search, end2: Search) | NoPair | UnpairedQuery | PairOutOfRange

  datatype PairStep = PairStep(outcome: PairOutcome, stage: Stage)

  /** `search_stage_decode_retrieve_pe_search`: two consecutive retrievals;
      no first end ends the iteration, no second end is a fatal error. */
  function RetrievePe(st: Stage): (r: PairStep)
    requires Inv(st)
    ensures Inv(r.stage) && r.stage.buffers == st.buffers
    ensures r.outcome.Paired? <==> RetrieveNext(st).next.Got? && RetrieveNext(RetrieveNext(st).stage).next.Got?
    ensures r.outcome.UnpairedQuery? <==> RetrieveNext(st).next.Got? && !RetrieveNext(RetrieveNext(st).stage).next.Got?
    ensures r.outcome.NoPair? <==> RetrieveNext(st).next.Exhausted?
  {
    var first := RetrieveNext(st);
    match first.next
    case OutOfRange => PairStep(PairOutOfRange, first.stage)
    case Exhausted => PairStep(NoPair, first.stage)
    case Got(end1) =>
      var second := RetrieveNext(first.stage);
      match second.next
      case Got(end2) => PairStep(Paired(end1, end2), second.stage)
      case _ => PairStep(UnpairedQuery, second.stage)
  }

  // ---------------------------------------------------------------------------
  // Draining and FIFO order
  // ---------------------------------------------------------------------------

  function Concat(bs: seq<seq<Search>>): seq<Search>
  {
    if |bs| == 0 then [] else bs[0] + Concat(bs[1..])
  }

  lemma AppendAssoc(a: seq<Search>, b: seq<Search>, c: seq<Search>)
    ensures (a + b) + c == a + (b + c)
  {
  }

  /** The first buffer from `k` on that is empty, or the number of buffers. */
  function FirstEmpty(bs: seq<seq<Search>>, k: nat): (e: nat)
    requires k <= |bs|
    ensures k <= e <= |bs| && (e < |bs| ==> bs[e] == [])
    ensures forall j :: k <= j < e ==> bs[j] != []
    decreases |bs| - k
  {
    if k == |bs| || bs[k] == [] then k else FirstEmpty(bs, k + 1)
  }

  /** The searches retrieved by calling `retrieve_next` until it fails. */
  function Drain(st: Stage): seq<Search>
    requires Inv(st)
    decreases if st.mode == Sending then 1 else 0, |st.buffers| - st.current, st.numSearches - st.searchIdx
  {
    var r := RetrieveNext(st);
    if r.next.Got? then [r.next.search] + Drain(r.stage) else []
  }

  /** From a buffer position on, retrieval yields the rest of this buffer and
      then whole buffers, stopping at the first empty one. */
  lemma {:induction false} DrainOrder(st: Stage)
    requires Inv(st) && st.mode == Retrieving && st.current < |st.buffers|
    ensures Drain(st) == st.buffers[st.current][st.searchIdx..]
                         + Concat(st.buffers[st.current + 1 .. FirstEmpty(st.buffers, st.current + 1)])
    decreases |st.buffers| - st.current, st.numSearches - st.searchIdx, 2
  {
    var bs := st.buffers;
    var c := st.current;
    if st.searchIdx < st.numSearches {
      var next := st.(searchIdx := st.searchIdx + 1);
      assert RetrieveNext(st) == Step(Got(bs[c][st.searchIdx]), next);
      DrainOrder(next);
      assert bs[c][st.searchIdx..] == [bs[c][st.searchIdx]] + bs[c][st.searchIdx + 1..];
    } else {
      DrainNextBuffer(st);
    }
  }

  /** At the end of a buffer, retrieval moves on to the next buffer, if it holds searches. */
  lemma {:induction false} DrainNextBuffer(st: Stage)
    requires Inv(st) && st.mode == Retrieving && st.current < |st.buffers| && st.searchIdx == st.numSearches
    ensures Drain(st) == Concat(st.buffers[st.current + 1 .. FirstEmpty(st.buffers, st.current + 1)])
    decreases |st.buffers| - st.current, 0, 1
  {
    var k := st.current + 1;
    if k < |st.buffers| && st.buffers[k] != [] {
      DrainEnterBuffer(st);
    } else {
      assert !RetrieveNext(st).next.Got?;
    }
  }

  /** Entering a buffer that holds searches yields its first search, then the rest of the drain. */
  lemma {:induction false} DrainEnterBuffer(st: Stage)
    requires Inv(st) && st.mode == Retrieving && st.searchIdx == st.numSearches
    requires st.current + 1 < |st.buffers| && st.buffers[st.current + 1] != []
    ensures Drain(st) == Concat(st.buffers[st.current + 1 .. FirstEmpty(st.buffers, st.current + 1)])
    decreases |st.buffers| - st.current, 0, 0
  {
    var bs := st.buffers;
    var k := st.current + 1;
    var next := st.(current := k, searchIdx := 1, numSearches := |bs[k]|, log := st.log + [FromDevice(k)]);
    assert RetrieveNext(st) == Step(Got(bs[k][0]), next);
    DrainGot(st);
    DrainOrder(next);
    var e := FirstEmpty(bs, k);
    assert FirstEmpty(bs, k + 1) == e;
    ConcatHead(bs, k, e);
    AppendAssoc([bs[k][0]], bs[k][1..], Concat(bs[k + 1..e]));
    assert [bs[k][0]] + bs[k][1..] == bs[k];
  }

  /** A retrieval that yields a search puts it at the head of the drain. */
  lemma DrainGot(st: Stage)
    requires Inv(st) && RetrieveNext(st).next.Got?
    ensures Drain(st) == [RetrieveNext(st).next.search] + Drain(RetrieveNext(st).stage)
  {
  }

  lemma ConcatHead(bs: seq<seq<Search>>, k: nat, e: nat)
    requires k < e <= |bs|
    ensures Concat(bs[k..e]) == bs[k] + Concat(bs[k + 1..e])
  {
    assert bs[k..e][1..] == bs[k + 1..e];
  }

  /** The sending-side shape: buffers before the current one hold searches,
      buffers after it are empty. */
  predicate Packed(st: Stage)
  {
    && (forall k :: 0 <= k < st.current && k < |st.buffers| ==> st.buffers[k] != [])
    && (forall k :: st.current < k < |st.buffers| ==> st.buffers[k] == [])
  }

  /** The fit test accepts any group in an empty buffer. */
  ghost predicate FitsEmpty(fits: Fits)
  {
    forall group :: fits([], group)
  }

  lemma {:induction false} ConcatAppend(a: seq<seq<Search>>, b: seq<seq<Search>>)
    ensures Concat(a + b) == Concat(a) + Concat(b)
  {
    if |a| > 0 {
      ConcatAppend(a[1..], b);
      assert (a + b)[1..] == a[1..] + b;
    } else {
      assert a + b == b;
    }
  }

  lemma {:induction false} ConcatEmpties(bs: seq<seq<Search>>)
    requires forall k :: 0 <= k < |bs| ==> bs[k] == []
    ensures Concat(bs) == []
  {
    if |bs| > 0 {
      ConcatEmpties(bs[1..]);
    }
  }

  /** A packed stage drains, from its sending state, into the concatenation of all its buffers. */
  lemma DrainPacked(st: Stage)
    requires Inv(st) && st.mode == Sending && Packed(st)
    ensures Drain(st) == Concat(st.buffers)
  {
    var bs := st.buffers;
    var b := RetrieveBegin(st);
    assert RetrieveNext(st) == RetrieveNext(b);
    assert Drain(st) == Drain(b);
    DrainOrder(b);
    var e := FirstEmpty(bs, 1);
    assert bs[0][0..] == bs[0];
    assert bs == [bs[0]] + bs[1..e] + bs[e..];
    ConcatAppend([bs[0]] + bs[1..e], bs[e..]);
    ConcatAppend([bs[0]], bs[1..e]);
    if e < |bs| {
      assert e >= st.current;
    }
    ConcatEmpties(bs[e..]);
    assert Concat([bs[0]]) == bs[0] + Concat([]);
  }

  lemma {:induction false} ConcatUpdateLast(bs: seq<seq<Search>>, c: nat, group: seq<Search>)
    requires c < |bs| && forall k :: c < k < |bs| ==> bs[k] == []
    ensures Concat(bs[c := bs[c] + group]) == Concat(bs) + group
  {
    var after := bs[c := bs[c] + group];
    assert bs == bs[..c] + [bs[c]] + bs[c + 1..];
    assert after == bs[..c] + [bs[c] + group] + bs[c + 1..];
    ConcatAppend(bs[..c] + [bs[c]], bs[c + 1..]);
    ConcatAppend(bs[..c], [bs[c]]);
    ConcatAppend(bs[..c] + [bs[c] + group], bs[c + 1..]);
    ConcatAppend(bs[..c], [bs[c] + group]);
    ConcatEmpties(bs[c + 1..]);
    assert Concat([bs[c]]) == bs[c] + Concat([]);
    assert Concat([bs[c] + group]) == bs[c] + group + Concat([]);
  }

  /** Sending keeps a stage packed and appends the accepted group to the
      concatenation of the buffers. */
  lemma SendAppends(st: Stage, group: seq<Search>, fits: Fits)
    requires Inv(st) && st.mode == Sending && Packed(st) && FitsEmpty(fits)
    ensures var r := Send(st, group, fits);
            && Packed(r.stage)
            && Concat(r.stage.buffers) == Concat(st.buffers) + (if r.accepted then group else [])
  {
    var r := Send(st, group, fits);
    forall k | 0 <= k < r.stage.current ensures st.buffers[k] != [] {
      if k >= st.current {
        assert !fits(st.buffers[k], group);
        assert fits([], group);
      }
    }
    if r.accepted {
      ConcatUpdateLast(st.buffers, r.stage.current, group);
    }
  }

  /** Send a sequence of groups in order; the searches of the groups accepted, in order. */
  function SendAll(st: Stage, groups: seq<seq<Search>>, fits: Fits): (r: (Stage, seq<Search>))
    requires Inv(st) && st.mode == Sending
    ensures Inv(r.0) && r.0.mode == Sending && |r.0.buffers| == |st.buffers|
    decreases |groups|
  {
    if |groups| == 0 then (st, [])
    else
      var s := Send(st, groups[0], fits);
      var rest := SendAll(s.stage, groups[1..], fits);
      (rest.0, (if s.accepted then groups[0] else []) + rest.1)
  }

  /** FIFO: after a clear and any sequence of sends, retrieval yields exactly
      the searches that were accepted, in the order they were sent. */
  lemma {:induction false} FifoRoundTrip(st: Stage, groups: seq<seq<Search>>, fits: Fits)
    requires Inv(st) && st.mode == Sending && Packed(st) && FitsEmpty(fits)
    ensures Drain(SendAll(st, groups, fits).0) == Concat(st.buffers) + SendAll(st, groups, fits).1
    decreases |groups|
  {
    if |groups| == 0 {
      DrainPacked(st);
    } else {
      var s := Send(st, groups[0], fits);
      var rest := SendAll(s.stage, groups[1..], fits);
      var sent := if s.accepted then groups[0] else [];
      assert SendAll(st, groups, fits) == (rest.0, sent + rest.1);
      SendAppends(st, groups[0], fits);
      FifoRoundTrip(s.stage, groups[1..], fits);
      AppendAssoc(Concat(st.buffers), sent, rest.1);
    }
  }

  /** From a freshly cleared stage the drain is exactly the accepted searches. */
  lemma FifoFromClear(st: Stage, groups: seq<seq<Search>>, fits: Fits)
    requires |st.buffers| >= 1 && FitsEmpty(fits)
    ensures Drain(SendAll(Clear(st), groups, fits).0) == SendAll(Clear(st), groups, fits).1
  {
    var c := Clear(st);
    ConcatEmpties(c.buffers);
    FifoRoundTrip(c, groups, fits);
  }

  /** A fit test for buffers of two searches each, which rejects a group of
      three even in an empty buffer. */
  function TwoPerBuffer(b: seq<Search>, group: seq<Search>): bool
  {
    |b| + |group| <= 2
  }

  /** The sending states of the example below: buffers and iterator position. */
  function Sent(buffers: seq<seq<Search>>, current: nat, log: seq<Event>): Stage
  {
    Stage(Sending, buffers, current, 0, 0, log)
  }

  lemma SendFirst()
    ensures Send(New(3), [Search(0)], TwoPerBuffer) == SendResult(true, Sent([[Search(0)], [], []], 0, []))
  {
    var st := New(3);
    assert st.buffers == [[], [], []];
    assert TwoPerBuffer(st.buffers[0], [Search(0)]);
    assert [] + [Search(0)] == [Search(0)];
  }

  lemma SendOversized()
    ensures Send(Sent([[Search(0)], [], []], 0, []), [Search(1), Search(2), Search(3)], TwoPerBuffer)
            == SendResult(false, Sent([[Search(0)], [], []], 2, [ToDevice(0), ToDevice(1)]))
  {
    var st := Sent([[Search(0)], [], []], 0, []);
    var g := [Search(1), Search(2), Search(3)];
    assert !TwoPerBuffer(st.buffers[0], g) && !TwoPerBuffer(st.buffers[1], g) && !TwoPerBuffer(st.buffers[2], g);
    assert Transfers(0, 2) == [ToDevice(0), ToDevice(1)];
  }

  lemma SendLast()
    ensures Send(Sent([[Search(0)], [], []], 2, [ToDevice(0), ToDevice(1)]), [Search(4)], TwoPerBuffer)
            == SendResult(true, Sent([[Search(0)], [], [Search(4)]], 2, [ToDevice(0), ToDevice(1)]))
  {
    var st := Sent([[Search(0)], [], []], 2, [ToDevice(0), ToDevice(1)]);
    assert TwoPerBuffer(st.buffers[2], [Search(4)]);
    assert Transfers(2, 2) == [];
    assert [] + [Search(4)] == [Search(4)];
  }

  /** The sends of the example below, from the last group back to the first. */
  lemma SendAllLast()
    ensures SendAll(Sent([[Search(0)], [], []], 2, [ToDevice(0), ToDevice(1)]), [[Search(4)]], TwoPerBuffer)
            == (Sent([[Search(0)], [], [Search(4)]], 2, [ToDevice(0), ToDevice(1)]), [Search(4)])
  {
    SendLast();
    var last := Sent([[Search(0)], [], [Search(4)]], 2, [ToDevice(0), ToDevice(1)]);
    assert [[Search(4)]][1..] == [];
    assert SendAll(last, [], TwoPerBuffer) == (last, []);
    assert [Search(4)] + [] == [Search(4)];
  }

  lemma SendAllOversized()
    ensures SendAll(Sent([[Search(0)], [], []], 0, []), [[Search(1), Search(2), Search(3)], [Search(4)]], TwoPerBuffer)
            == (Sent([[Search(0)], [], [Search(4)]], 2, [ToDevice(0), ToDevice(1)]), [Search(4)])
  {
    SendOversized();
    SendAllLast();
    assert [[Search(1), Search(2), Search(3)], [Search(4)]][1..] == [[Search(4)]];
    assert [] + [Search(4)] == [Search(4)];
  }

  lemma SendAllFirst()
    ensures SendAll(New(3), [[Search(0)], [Search(1), Search(2), Search(3)], [Search(4)]], TwoPerBuffer)
            == (Sent([[Search(0)], [], [Search(4)]], 2, [ToDevice(0), ToDevice(1)]), [Search(0), Search(4)])
  {
    SendFirst();
    SendAllOversized();
    assert [[Search(0)], [Search(1), Search(2), Search(3)], [Search(4)]][1..] == [[Search(1), Search(2), Search(3)], [Search(4)]];
    assert [Search(0)] + [Search(4)] == [Search(0), Search(4)];
  }

  /** The fit-test assumption is needed: with three buffers of two searches
      each, a group of three fits nowhere and leaves the middle buffer empty,
      so the search then accepted into the last buffer is never retrieved. */
  lemma FifoNeedsFitsEmpty()
    ensures var sent := SendAll(New(3), [[Search(0)], [Search(1), Search(2), Search(3)], [Search(4)]], TwoPerBuffer);
            && !FitsEmpty(TwoPerBuffer)
            && sent.1 == [Search(0), Search(4)]
            && Drain(sent.0) == [Search(0)]
  {
    assert !TwoPerBuffer([], [Search(1), Search(2), Search(3)]);
    SendAllFirst();
    DrainAfterGap();
  }

  lemma DrainAfterGap()
    ensures Drain(Sent([[Search(0)], [], [Search(4)]], 2, [ToDevice(0), ToDevice(1)])) == [Search(0)]
  {
    var st := Sent([[Search(0)], [], [Search(4)]], 2, [ToDevice(0), ToDevice(1)]);
    var b := RetrieveBegin(st);
    assert RetrieveNext(st) == RetrieveNext(b);
    assert Drain(st) == Drain(b);
    DrainOrder(b);
    assert FirstEmpty(b.buffers, 1) == 1;
    assert b.buffers[0][0..] == [Search(0)];
  }

  // ---------------------------------------------------------------------------
  // Transfers
  // ---------------------------------------------------------------------------

  /** While sending, the buffers before the current one have each been sent once, in order. */
  predicate SentBefore(st: Stage)
  {
    st.log == Transfers(0, st.current)
  }

  /** Each buffer from 0 to the one being filled is sent exactly once, in
      order, before the first results are fetched from buffer 0. */
  lemma SentExactlyOnce(st: Stage, groups: seq<seq<Search>>, fits: Fits)
    requires Inv(st) && st.mode == Sending && SentBefore(st)
    ensures var s := SendAll(st, groups, fits).0;
            RetrieveBegin(s).log == Transfers(0, s.current + 1) + [FromDevice(0)]
  {
    SendAllKeepsLog(st, groups, fits);
    var s := SendAll(st, groups, fits).0;
    assert Transfers(0, s.current) + [ToDevice(s.current)] == Transfers(0, s.current + 1);
  }

  lemma {:induction false} SendAllKeepsLog(st: Stage, groups: seq<seq<Search>>, fits: Fits)
    requires Inv(st) && st.mode == Sending && SentBefore(st)
    ensures SentBefore(SendAll(st, groups, fits).0)
    decreases |groups|
  {
    if |groups| > 0 {
      var s := Send(st, groups[0], fits);
      assert Transfers(0, st.current) + Transfers(st.current, s.stage.current) == Transfers(0, s.stage.current);
      SendAllKeepsLog(s.stage, groups[1..], fits);
    }
  }

  // ---------------------------------------------------------------------------
  // Pairs
  // ---------------------------------------------------------------------------

  /** Every buffer holds whole pairs, and retrieval stands between pairs. */
  predicate PairAligned(st: Stage)
  {
    && (forall k :: 0 <= k < |st.buffers| ==> |st.buffers[k]| % 2 == 0)
    && (st.mode == Retrieving ==> st.searchIdx % 2 == 0)
  }

  /** Paired sends keep every buffer whole-paired. */
  lemma SendPeAligned(st: Stage, end1: Search, end2: Search, fits: Fits)
    requires Inv(st) && st.mode == Sending && PairAligned(st)
    ensures PairAligned(SendPe(st, end1, end2, fits).stage)
  {
  }

  /** Over whole pairs, a paired retrieval never splits a pair: there is no
      unpaired-query error, and the stage stays between pairs. */
  lemma PairsNeverSplit(st: Stage)
    requires Inv(st) && PairAligned(st)
    ensures !RetrievePe(st).outcome.UnpairedQuery?
    ensures PairAligned(RetrievePe(st).stage)
  {
    var first := RetrieveNext(st);
    if first.next.Got? {
      RetrievedFromBuffer(st);
      var c := first.stage.current;
      assert first.stage.searchIdx % 2 == 1;
      assert first.stage.searchIdx < |st.buffers[c]|;
    }
  }
}
