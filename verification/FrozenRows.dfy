/** A game whose row is visible is not written again by the scan that made it visible. */
module FrozenRows {
  import opened ParserSpec
  import opened ParserRuns
  import opened SessionTable

  /** `scan_game` is the newest server. */
  predicate Current(t: Table) {
    t.servers > 0 ==> t.game == t.servers - 1
  }

  /** The record is about the newest server or a later one. */
  predicate InStep(t: Table, r: Record) {
    t.servers <= r.server + 1
  }

  /** A record writes no game but its own, and shows no row but its own, and that only if it is the server's LAST. */
  lemma ConsumeWritesItsOwnRow(lib: Library, t: Table, r: Record, go: bool)
    requires GoodTable(t) && Current(t) && InStep(t, r)
    ensures var a := Consume(lib, t, r, go);
      && Current(a.table) && t.servers <= a.table.servers <= r.server + 1
      && (forall g :: 0 <= g < MAX_SERVERS && g != r.server ==> a.table.games[g] == t.games[g])
      && a.table.rows == t.rows + (if !a.stop && r.status == Last && !r.isPlayer then [r.server] else [])
      && a.table.prev == t.prev && a.table.prevCount == t.prevCount
      && (!a.stop ==> a.table.servers == r.server + 1)
  {
    assert t.rows + [] == t.rows;
  }

  predicate AllInStep(t: Table, trace: seq<Record>) {
    forall i :: 0 <= i < |trace| ==> InStep(t, trace[i])
  }

  lemma {:induction false} ConsumeAllConcat(lib: Library, t: Table, a: seq<Record>, b: seq<Record>)
    requires GoodTable(t)
    ensures ConsumeAll(lib, t, a + b) ==
      if ConsumeAll(lib, t, a).stop then ConsumeAll(lib, t, a) else ConsumeAll(lib, ConsumeAll(lib, t, a).table, b)
    decreases |a|
  {
    if a == [] {
      assert a + b == b;
    } else {
      assert (a + b)[1..] == a[1..] + b;
      var first := Consume(lib, t, a[0], true);
      if !first.stop {
        ConsumeAllConcat(lib, first.table, a[1..], b);
      }
    }
  }

  lemma OrderedTail(trace: seq<Record>)
    requires trace != [] && Ordered(trace)
    ensures Ordered(trace[1..])
    ensures forall i :: 0 <= i < |trace[1..]| ==> trace[0].server <= trace[1..][i].server
  {
    forall i | 0 <= i < |trace[1..]| ensures trace[0].server <= trace[1..][i].server {
      assert MayPrecede(trace[0], trace[i + 1].server, trace[i + 1].player);
    }
  }

  /** In an ordered trace every record finds the table in step, and no row before the first record's is written. */
  lemma {:induction false} ConsumeAllWritesForward(lib: Library, t: Table, trace: seq<Record>, g: nat)
    requires GoodTable(t) && Current(t) && Ordered(trace) && AllInStep(t, trace)
    requires g < MAX_SERVERS && forall i :: 0 <= i < |trace| ==> g < trace[i].server
    ensures var a := ConsumeAll(lib, t, trace);
      a.table.games[g] == t.games[g] && t.rows <= a.table.rows
    decreases |trace|
  {
    if trace != [] {
      ConsumeWritesItsOwnRow(lib, t, trace[0], true);
      OrderedTail(trace);
      var a := Consume(lib, t, trace[0], true);
      if !a.stop {
        ConsumeAllWritesForward(lib, a.table, trace[1..], g);
      }
    }
  }

  /** The table stays in step with an ordered trace. */
  lemma {:induction false} StaysInStep(lib: Library, t: Table, trace: seq<Record>, later: seq<Record>)
    requires GoodTable(t) && Current(t) && Ordered(trace + later) && AllInStep(t, trace + later)
    ensures Current(ConsumeAll(lib, t, trace).table) && AllInStep(ConsumeAll(lib, t, trace).table, later)
    decreases |trace|
  {
    var all := trace + later;
    if trace == [] {
      assert all == later;
    } else {
      assert all[0] == trace[0];
      ConsumeWritesItsOwnRow(lib, t, trace[0], true);
      OrderedTail(all);
      assert all[1..] == trace[1..] + later;
      var a := Consume(lib, t, trace[0], true);
      assert AllInStep(a.table, all[1..]);
      if a.stop {
        forall i | 0 <= i < |later| ensures InStep(a.table, later[i]) {
          assert later[i] == all[1..][|trace| - 1 + i];
        }
      } else {
        StaysInStep(lib, a.table, trace[1..], later);
      }
    }
  }

  /** For every byte stream, chunking, read failure and stop request: once the LAST of a server has been consumed, no
      later callback of the scan writes that game or its players, and no row goes away. */
  lemma FinishedRowsAreFrozen(lib: Library, t: Table, stop: Consumer, http: bool, input: seq<Read>, k: nat, m: nat)
    requires GoodTable(t) && t.servers == 0
    requires k < m <= |Parse(stop, http, input).trace|
    requires var r := Parse(stop, http, input).trace[k]; r.status == Last && !r.isPlayer && r.server < MAX_SERVERS
    ensures var trace := Parse(stop, http, input).trace;
      var before, after := ConsumeAll(lib, t, trace[..k + 1]), ConsumeAll(lib, t, trace[..m]);
      && after.table.games[trace[k].server] == before.table.games[trace[k].server]
      && before.table.rows <= after.table.rows
  {
    var trace := Parse(stop, http, input).trace;
    TraceOrder(stop, http, input);
    var first, later := trace[..k + 1], trace[k + 1..m];
    assert trace[..m] == first + later;
    assert Ordered(first + later) && Ordered(later);
    StaysInStep(lib, t, first, later);
    ConsumeAllConcat(lib, t, first, later);
    var before := ConsumeAll(lib, t, first);
    forall i | 0 <= i < |later| ensures trace[k].server < later[i].server {
      assert MayPrecede(trace[k], trace[k + 1 + i].server, trace[k + 1 + i].player);
    }
    if !before.stop {
      ConsumeAllWritesForward(lib, before.table, later, trace[k].server);
    }
  }

  // ---------------------------------------------------------------- the player count stays within its array

  predicate CountsFit(t: Table) {
    |t.games| == MAX_SERVERS && forall g :: 0 <= g < MAX_SERVERS ==> t.games[g].playerCount <= MAX_PLAYERS
  }

  /** Of the newest server, at most the players opened are counted. A record still to come is about the newest player or
      a later one, and about a later one if all are counted. */
  predicate MayFollow(t: Table, r: Record)
    requires GoodTable(t) && Current(t)
  {
    t.servers > 0 ==>
      && t.games[t.game].playerCount <= t.players
      && (r.isPlayer && r.server == t.game ==>
        t.players <= r.player + 1 && (t.games[t.game].playerCount == t.players ==> t.players <= r.player))
  }

  lemma CountStep(lib: Library, t: Table, r: Record)
    requires GoodTable(t) && Current(t) && InStep(t, r) && CountsFit(t) && MayFollow(t, r)
    ensures CountsFit(Consume(lib, t, r, true).table)
  {
  }

  lemma FollowStep(lib: Library, t: Table, r: Record, later: Record)
    requires GoodTable(t) && Current(t) && InStep(t, r) && MayFollow(t, r)
    requires MayPrecede(r, later.server, later.player) && MayFollow(t, later)
    requires !Consume(lib, t, r, true).stop && Current(Consume(lib, t, r, true).table)
    ensures MayFollow(Consume(lib, t, r, true).table, later)
  {
  }

  lemma {:induction false} CountsFitAll(lib: Library, t: Table, trace: seq<Record>)
    requires GoodTable(t) && Current(t) && Ordered(trace) && AllInStep(t, trace) && CountsFit(t)
    requires forall i :: 0 <= i < |trace| ==> MayFollow(t, trace[i])
    ensures CountsFit(ConsumeAll(lib, t, trace).table)
    decreases |trace|
  {
    if trace != [] {
      ConsumeWritesItsOwnRow(lib, t, trace[0], true);
      CountStep(lib, t, trace[0]);
      OrderedTail(trace);
      var a := Consume(lib, t, trace[0], true);
      if !a.stop {
        forall i | 0 <= i < |trace[1..]| ensures MayFollow(a.table, trace[1..][i]) {
          assert MayPrecede(trace[0], trace[i + 1].server, trace[i + 1].player);
          FollowStep(lib, t, trace[0], trace[i + 1]);
        }
        CountsFitAll(lib, a.table, trace[1..]);
      }
    }
  }

  /** No scan ever counts more players than a game has room for, so a walk over the counted ones stays in the array. */
  lemma PlayerCountsFit(lib: Library, t: Table, stop: Consumer, http: bool, input: seq<Read>, m: nat)
    requires GoodTable(t) && t.servers == 0 && CountsFit(t) && m <= |Parse(stop, http, input).trace|
    ensures CountsFit(ConsumeAll(lib, t, Parse(stop, http, input).trace[..m]).table)
  {
    TraceOrder(stop, http, input);
    CountsFitAll(lib, t, Parse(stop, http, input).trace[..m]);
  }
}
