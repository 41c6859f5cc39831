/** Facts about whole runs of the parser: how they compose, how a stop request cuts them short, and in which order
    they report. */
module ParserRuns {
  import opened ParserSpec
  import opened ParserInvariants

  // ---------------------------------------------------------------- composition

  /** Running over `a + b` is running over `a` and, if that did not return, over `b`. */
  lemma {:induction false} RunAllConcat(s: State, a: string, b: string)
    ensures RunAll(s, a + b) ==
      if RunAll(s, a).end.Return? then RunAll(s, a)
      else Prepend(RunAll(s, a).trace, RunAll(RunAll(s, a).end.state, b))
    decreases |a|
  {
    if a == "" {
      assert a + b == b;
    } else {
      assert (a + b)[1..] == a[1..] + b;
      var r := Step(s, a[0]);
      if r.next.Go? {
        RunAllConcat(r.next.state, a[1..], b);
        var first := RunAll(r.next.state, a[1..]);
        if first.end.Go? {
          PrependTwice(r.out, first.trace, RunAll(first.end.state, b));
        }
      }
    }
  }

  lemma PrependTwice<T>(a: seq<Record>, b: seq<Record>, r: Run<T>)
    ensures Prepend(a, Prepend(b, r)) == Prepend(a + b, r)
  {
    assert a + (b + r.trace) == (a + b) + r.trace;
  }

  // ---------------------------------------------------------------- chunk independence

  function Joined(chunks: seq<string>): string {
    if chunks == [] then "" else chunks[0] + Joined(chunks[1..])
  }

  /** The reads that deliver the chunks and then report the end of the stream. */
  function ReadsOf(chunks: seq<string>): seq<Read> {
    if chunks == [] then [Received("")] else [Received(chunks[0])] + ReadsOf(chunks[1..])
  }

  lemma {:induction false} ReadsDeliver(chunks: seq<string>)
    requires forall i :: 0 <= i < |chunks| ==> chunks[i] != ""
    ensures Delivered(ReadsOf(chunks)) == Joined(chunks) && !Broken(ReadsOf(chunks))
  {
    if chunks != [] {
      ReadsDeliver(chunks[1..]);
      assert ReadsOf(chunks)[1..] == ReadsOf(chunks[1..]);
    }
  }

  /** However a stream is cut into nonempty buffers, the return value, the callbacks and the parser's final state are
      those of the one-byte step folded over the stream. */
  lemma ChunkIndependence(stop: Consumer, http: bool, chunks: seq<string>)
    requires forall i :: 0 <= i < |chunks| ==> chunks[i] != ""
    ensures Parse(stop, http, ReadsOf(chunks)) == RunWith(stop, [], Initial(http), Joined(chunks))
  {
    ReadsDeliver(chunks);
  }

  // ---------------------------------------------------------------- stopping

  /** The first `k` in `1..|trace|` at which the consumer, having seen `done`, answers nonzero; 0 if there is none. */
  function StopAt(stop: Consumer, done: seq<Record>, trace: seq<Record>): (k: nat)
    ensures k <= |trace|
    ensures k > 0 ==> stop(done + trace[..k])
    ensures forall i :: 1 <= i <= |trace| && (k == 0 || i < k) ==> !stop(done + trace[..i])
  {
    if trace == [] then 0
    else
      var k := StopAt(stop, done, trace[..|trace| - 1]);
      assert forall i :: 1 <= i <= |trace| - 1 ==> trace[..|trace| - 1][..i] == trace[..i];
      assert trace[..|trace|] == trace;
      if k > 0 then k else if stop(done + trace) then |trace| else 0
  }

  /** What is left of a run when the consumer may stop it. */
  function Cut(stop: Consumer, done: seq<Record>, r: Run<State>): Run<State> {
    var k := StopAt(stop, done, r.trace);
    if k > 0 then Run(done + r.trace[..k], Return(1)) else Prepend(done, r)
  }

  lemma StopAtUnique(stop: Consumer, done: seq<Record>, trace: seq<Record>, k: nat)
    requires k <= |trace| && (k > 0 ==> stop(done + trace[..k]))
    requires forall i :: 1 <= i <= |trace| && (k == 0 || i < k) ==> !stop(done + trace[..i])
    ensures StopAt(stop, done, trace) == k
  {
  }

  lemma StopAtStep(stop: Consumer, done: seq<Record>, r: Record, rest: seq<Record>)
    ensures StopAt(stop, done, [r] + rest) ==
      if stop(done + [r]) then 1
      else var k := StopAt(stop, done + [r], rest); if k > 0 then k + 1 else 0
  {
    var k := StopAt(stop, done + [r], rest);
    assert ([r] + rest)[..1] == [r];
    forall i | 1 <= i <= |rest| ensures done + ([r] + rest)[..i + 1] == (done + [r]) + rest[..i] {
    }
    forall i | 2 <= i <= |rest| + 1 && (k == 0 || i < k + 1) && !stop(done + [r])
      ensures !stop(done + ([r] + rest)[..i])
    {
      assert done + ([r] + rest)[..(i - 1) + 1] == (done + [r]) + rest[..i - 1];
    }
    if stop(done + [r]) {
      StopAtUnique(stop, done, [r] + rest, 1);
    } else {
      StopAtUnique(stop, done, [r] + rest, if k > 0 then k + 1 else 0);
    }
  }

  lemma CutStep(stop: Consumer, done: seq<Record>, out: seq<Record>, rest: Run<State>)
    requires |out| <= 1
    ensures Cut(stop, done, Prepend(out, rest)) ==
      if out != [] && stop(done + out) then Run(done + out, Return(1)) else Cut(stop, done + out, rest)
  {
    if out == [] {
      assert out + rest.trace == rest.trace && done + out == done;
    } else {
      CutAtRecord(stop, done, out[0], rest);
      assert out == [out[0]];
    }
  }

  lemma CutAtRecord(stop: Consumer, done: seq<Record>, x: Record, rest: Run<State>)
    ensures Cut(stop, done, Prepend([x], rest)) ==
      if stop(done + [x]) then Run(done + [x], Return(1)) else Cut(stop, done + [x], rest)
  {
    StopAtStep(stop, done, x, rest.trace);
    if stop(done + [x]) {
      assert ([x] + rest.trace)[..1] == [x];
    } else {
      var k := StopAt(stop, done + [x], rest.trace);
      assert done + ([x] + rest.trace)[..k + 1] == (done + [x]) + rest.trace[..k];
      assert done + ([x] + rest.trace) == (done + [x]) + rest.trace;
    }
  }

  /** A consumer changes nothing about a run except where it ends: the callbacks are those of the unstopped run up to
      and including the first nonzero answer, and then the run returns 1. */
  lemma {:induction false} StoppingCutsTheRun(stop: Consumer, done: seq<Record>, s: State, bytes: string)
    ensures RunWith(stop, done, s, bytes) == Cut(stop, done, RunAll(s, bytes))
    decreases |bytes|
  {
    if bytes != "" {
      var r := Step(s, bytes[0]);
      StepEmitsAtMostOne(s, bytes[0]);
      if r.next.Return? {
        CutStep(stop, done, r.out, Run([], r.next));
      } else {
        CutStep(stop, done, r.out, RunAll(r.next.state, bytes[1..]));
        StoppingCutsTheRun(stop, done + r.out, r.next.state, bytes[1..]);
      }
    }
  }

  lemma StepEmitsAtMostOne(s: State, c: char)
    ensures |Step(s, c).out| <= 1
  {
  }

  // ---------------------------------------------------------------- order of the reports

  /** Lexicographic order on (server, player). */
  predicate AtMost(s1: nat, p1: nat, s2: nat, p2: nat) {
    s1 < s2 || (s1 == s2 && p1 <= p2)
  }

  /** A report `a` may be followed by one at the given indices: the indices never go back, and a LAST closes its server
      or its player for good. */
  predicate MayPrecede(a: Record, server: nat, player: nat) {
    && AtMost(a.server, a.player, server, player)
    && (a.status == Last && a.isPlayer ==> AtMost(a.server, a.player + 1, server, player))
    && (a.status == Last && !a.isPlayer ==> a.server < server)
  }

  predicate Ordered(trace: seq<Record>) {
    forall i, j :: 0 <= i < j < |trace| ==> MayPrecede(trace[i], trace[j].server, trace[j].player)
  }

  /** The slots only advance, and a LAST advances them past its block in the same byte. */
  predicate Advances(s: JState, r: Reaction<JState>) {
    && (forall x <- r.out :: x.server == s.server && x.player == s.player)
    && (r.next.Go? ==>
      && AtMost(s.server, s.player, r.next.state.server, r.next.state.player)
      && forall x <- r.out :: MayPrecede(x, r.next.state.server, r.next.state.player))
  }

  lemma NextAdvances(s: JState, c: char)
    ensures Advances(s, OnNext(s, c))
    ensures c == '}' && OnNext(s, c).next.Go? && |s.stack| == 3 ==> OnNext(s, c).next.state.server == s.server + 1
    ensures c == '}' && OnNext(s, c).next.Go? && |s.stack| == 5 ==> OnNext(s, c).next.state.player == s.player + 1
  {
  }

  lemma JsonAdvances(s: JState, c: char)
    requires GoodJson(s)
    ensures Advances(s, StepJson(s, c))
  {
    if s.mode == KeyName || s.mode == Value || s.mode == Next {
      NextAdvances(s.(mode := Next), c);
    } else if s.mode == ReadValue && !s.inQuote {
      NextAdvances(Cleared(s), c);
    }
  }

  lemma StepAdvances(s: State, c: char)
    requires Good(s)
    ensures var r := Step(s, c);
      && (forall x <- r.out :: x.server == s.json.server && x.player == s.json.player)
      && (r.next.Go? ==>
        && AtMost(s.json.server, s.json.player, r.next.state.json.server, r.next.state.json.player)
        && forall x <- r.out :: MayPrecede(x, r.next.state.json.server, r.next.state.json.player))
  {
    if s.mode == Json {
      JsonAdvances(s.json, c);
    }
  }

  lemma {:induction false} RunIsOrdered(s: State, bytes: string)
    requires Good(s)
    ensures Ordered(RunAll(s, bytes).trace)
    ensures forall x <- RunAll(s, bytes).trace :: AtMost(s.json.server, s.json.player, x.server, x.player)
    decreases |bytes|
  {
    if bytes != "" {
      StepAdvances(s, bytes[0]);
      StepEmitsAtMostOne(s, bytes[0]);
      StepKeepsGood(s, bytes[0]);
      var r := Step(s, bytes[0]);
      if r.next.Go? {
        RunIsOrdered(r.next.state, bytes[1..]);
      }
    }
  }

  lemma CutIsPrefix(stop: Consumer, r: Run<State>)
    ensures Cut(stop, [], r).trace <= r.trace
  {
  }

  /** For every byte stream, consumer and failure of the reader, the callbacks come in order, and nothing is reported
      about a server or a player after its LAST. */
  lemma TraceOrder(stop: Consumer, http: bool, input: seq<Read>)
    ensures Ordered(Parse(stop, http, input).trace)
  {
    var all := RunAll(Initial(http), Delivered(input));
    StoppingCutsTheRun(stop, [], Initial(http), Delivered(input));
    RunIsOrdered(Initial(http), Delivered(input));
    CutIsPrefix(stop, all);
  }

  /** In particular a block has at most one LAST. */
  lemma OneLastPerBlock(stop: Consumer, http: bool, input: seq<Read>, i: nat, j: nat)
    requires i < j < |Parse(stop, http, input).trace|
    requires Parse(stop, http, input).trace[i].status == Last && Parse(stop, http, input).trace[j].status == Last
    ensures var a, b := Parse(stop, http, input).trace[i], Parse(stop, http, input).trace[j];
      a.isPlayer == b.isPlayer ==> a.server < b.server || (a.isPlayer && a.server == b.server && a.player < b.player)
  {
    TraceOrder(stop, http, input);
  }

  // ---------------------------------------------------------------- terminal callbacks

  /** Every call of `ProcessDataCallback`: data, or `KVI_STATUS_COMPLETE` or `KVI_STATUS_ERROR`. */
  datatype Call = Data(record: Record) | Complete | Error

  function DataCalls(trace: seq<Record>): (calls: seq<Call>)
    ensures |calls| == |trace|
  {
    seq(|trace|, i requires 0 <= i < |trace| => Data(trace[i]))
  }

  /** Once a data callback has answered nonzero there is no other, and the parser returns 1. */
  lemma NothingAfterAStop(stop: Consumer, http: bool, input: seq<Read>)
    ensures var r := Parse(stop, http, input);
      && (forall k :: 1 <= k < |r.trace| ==> !stop(r.trace[..k]))
      && (r.trace != [] && stop(r.trace) ==> r.end == Return(1))
  {
    var all := RunAll(Initial(http), Delivered(input));
    StoppingCutsTheRun(stop, [], Initial(http), Delivered(input));
    var k := StopAt(stop, [], all.trace);
    var r := Parse(stop, http, input);
    if k > 0 {
      assert [] + all.trace[..k] == all.trace[..k];
      forall i | 1 <= i < k ensures !stop(r.trace[..i]) {
        assert r.trace[..i] == all.trace[..i] == [] + all.trace[..i];
      }
    } else {
      assert r.trace == all.trace;
      forall i | 1 <= i <= |all.trace| ensures !stop(all.trace[..i]) {
        assert all.trace[..i] == [] + all.trace[..i];
      }
      assert all.trace[..|all.trace|] == all.trace;
    }
  }
}
