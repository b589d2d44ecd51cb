/**
 The half-close protocol of the tunnel: relay in internal/daemon/connect.go at the server end and
 relayClient in internal/daemon/client.go at the client end, over one FIFO link each way.

 Each end runs two loops. One reads its local socket and writes frames; at end of input it writes
 an empty frame. The other reads frames and writes its local socket; at an empty frame it closes
 that socket's write side. A loop that ends this way counts one half, and the second half closes
 the tunnel. Any I/O error closes it at once. Loops interleave freely, one step at a time.
 */
module Tunnel {

  datatype Side = Client | Server
  datatype Item = Data(bytes: seq<int>) | Empty

  /** The loop that reads a local socket. Finishing has written the empty frame and not counted yet. */
  datatype Sender = Reading | Finishing | Finished
  /** The loop that writes a local socket. Closing has passed the end of input on and not counted yet. */
  datatype Receiver = Receiving | Closing | Closed

  /** One direction: what was read at one end, in the sending loop's hands, on the link, in the
      receiving loop's hands, and written at the other end. */
  datatype Direction = Direction(read: seq<int>, pending: seq<int>, sender: Sender,
                                 link: seq<Item>,
                                 receiver: Receiver, holding: seq<int>, written: seq<int>)

  /** halves counts the loops of an end that finished; gone says its connection was closed. */
  datatype End = End(halves: nat, gone: bool)

  datatype State = State(up: Direction, down: Direction, client: End, server: End, failed: bool)

  function Other(side: Side): Side { if side == Client then Server else Client }

  /** The direction that starts at a side. */
  function From(s: State, side: Side): Direction { if side == Client then s.up else s.down }

  function WithFrom(s: State, side: Side, d: Direction): State {
    if side == Client then s.(up := d) else s.(down := d)
  }

  function EndOf(s: State, side: Side): End { if side == Client then s.client else s.server }

  /** finish: the second half to end closes the tunnel. */
  function CountHalf(s: State, side: Side): State {
    var n := EndOf(s, side).halves + 1;
    var e := End(n, n == 2 || EndOf(s, side).gone);
    if side == Client then s.(client := e) else s.(server := e)
  }

  function Start(): State {
    var d := Direction([], [], Reading, [], Receiving, [], []);
    State(d, d, End(0, false), End(0, false), false)
  }

  // -------------------------------------------------------------------------
  // Steps. The side is where the direction starts; its receiving loop runs at the other side.

  datatype Event = Read(from: Side, chunk: seq<int>)
                 | Send(from: Side)
                 | SendEnd(from: Side)
                 | CountSender(from: Side)
                 | Receive(from: Side)
                 | Write(from: Side)
                 | CountReceiver(from: Side)
                 | WriteError(from: Side)
                 | ReadError(from: Side)

  predicate IsError(e: Event) { e.WriteError? || e.ReadError? }

  /** Whether a direction's own loops can take a step. */
  predicate CanMove(d: Direction, e: Event) {
    match e
    case Read(_, chunk) => d.sender == Reading && d.pending == [] && chunk != []
    case Send(_) => d.sender == Reading && d.pending != []
    case SendEnd(_) => d.sender == Reading && d.pending == []
    case CountSender(_) => d.sender == Finishing
    case Receive(_) => d.receiver == Receiving && d.holding == [] && d.link != []
    case Write(_) => d.receiver == Receiving && d.holding != []
    case CountReceiver(_) => d.receiver == Closing
    case WriteError(_) => d.sender == Reading
    case ReadError(_) => d.receiver == Receiving
  }

  /** An error needs a closed connection: a frame written after either end closed its own, or a
      read at an end that closed its own or past the last frame of one that was closed. */
  predicate Enabled(s: State, e: Event) {
    var d := From(s, e.from);
    && CanMove(d, e)
    && (e.WriteError? ==> EndOf(s, e.from).gone || EndOf(s, Other(e.from)).gone)
    && (e.ReadError? ==> EndOf(s, Other(e.from)).gone || (d.link == [] && EndOf(s, e.from).gone))
  }

  function Moved(d: Direction, e: Event): Direction
    requires CanMove(d, e)
  {
    match e
    case Read(_, chunk) => d.(read := d.read + chunk, pending := chunk)
    case Send(_) => d.(pending := [], link := d.link + [Data(d.pending)])
    case SendEnd(_) => d.(sender := Finishing, link := d.link + [Empty])
    case CountSender(_) => d.(sender := Finished)
    case Receive(_) =>
      if d.link[0].Data? then d.(link := d.link[1..], holding := d.link[0].bytes)
      else d.(link := d.link[1..], receiver := Closing)
    case Write(_) => d.(holding := [], written := d.written + d.holding)
    case CountReceiver(_) => d.(receiver := Closed)
    case WriteError(_) => d
    case ReadError(_) => d
  }

  function Apply(s: State, e: Event): State
    requires Enabled(s, e)
  {
    var t := WithFrom(s, e.from, Moved(From(s, e.from), e));
    if IsError(e) then t.(failed := true)
    else if e.CountSender? then CountHalf(t, e.from)
    else if e.CountReceiver? then CountHalf(t, Other(e.from))
    else t
  }

  ghost predicate Reaches(s: State, es: seq<Event>, t: State)
    decreases |es|
  {
    if es == [] then s == t else Enabled(s, es[0]) && Reaches(Apply(s, es[0]), es[1..], t)
  }

  ghost predicate Reachable(t: State) {
    exists es :: Reaches(Start(), es, t)
  }

  // -------------------------------------------------------------------------
  // The invariant

  /** The bytes on a link, in order. */
  function OnLink(items: seq<Item>): seq<int> {
    if items == [] then []
    else if items[0].Data? then items[0].bytes + OnLink(items[1..])
    else OnLink(items[1..])
  }

  /** Nothing is lost, repeated or reordered. */
  ghost predicate Conserved(d: Direction) {
    d.read == d.written + (d.holding + (OnLink(d.link) + d.pending))
  }

  /** The empty frame is written once, after everything else, and the receiving loop ends on it. */
  ghost predicate EndsOnce(d: Direction) {
    && (forall i :: 0 <= i < |d.link| ==>
          if d.link[i].Empty? then i == |d.link| - 1 && d.sender != Reading else d.link[i].bytes != [])
    && (d.sender != Reading ==>
          d.pending == [] && (d.receiver == Receiving <==> d.link != [] && d.link[|d.link| - 1].Empty?))
    && (d.receiver != Receiving ==> d.sender != Reading && d.link == [] && d.holding == [])
  }

  ghost predicate InOrder(d: Direction) {
    Conserved(d) && EndsOnce(d)
  }

  function Halves(s: State, side: Side): nat {
    (if From(s, side).sender == Finished then 1 else 0) + (if From(s, Other(side)).receiver == Closed then 1 else 0)
  }

  /** The direction that starts at a side is in order, and the side counts its finished loops. */
  ghost predicate SideOk(s: State, side: Side) {
    InOrder(From(s, side)) && EndOf(s, side) == End(Halves(s, side), Halves(s, side) == 2)
  }

  ghost predicate Inv(s: State) {
    !s.failed && SideOk(s, Client) && SideOk(s, Server)
  }

  lemma {:induction false} OnLinkAppend(items: seq<Item>, item: Item)
    ensures OnLink(items + [item]) == if item.Data? then OnLink(items) + item.bytes else OnLink(items)
  {
    if items == [] {
      assert items + [item] == [item] && OnLink([item][1..]) == [];
    } else {
      assert (items + [item])[1..] == items[1..] + [item];
      OnLinkAppend(items[1..], item);
      if items[0].Data? && item.Data? {
        assert items[0].bytes + (OnLink(items[1..]) + item.bytes) == (items[0].bytes + OnLink(items[1..])) + item.bytes;
      }
    }
  }

  /** A step of one direction loses, repeats and reorders nothing. */
  lemma MoveConserves(d: Direction, e: Event)
    requires Conserved(d) && CanMove(d, e)
    ensures Conserved(Moved(d, e))
  {
    hide OnLink;
    var link := OnLink(d.link);
    match e
    case Read(_, chunk) =>
      assert (d.written + (d.holding + (link + []))) + chunk == d.written + (d.holding + (link + chunk));
    case Send(_) =>
      OnLinkAppend(d.link, Data(d.pending));
      assert (link + d.pending) + [] == link + d.pending;
    case SendEnd(_) => OnLinkAppend(d.link, Empty);
    case Receive(_) =>
      OnLinkFirst(d.link);
      if d.link[0].Data? {
        var bytes, rest := d.link[0].bytes, OnLink(d.link[1..]);
        assert [] + ((bytes + rest) + d.pending) == bytes + (rest + d.pending);
      }
    case Write(_) =>
      assert d.written + (d.holding + (link + d.pending)) == (d.written + d.holding) + ([] + (link + d.pending));
    case CountSender(_) =>
    case CountReceiver(_) =>
    case WriteError(_) =>
    case ReadError(_) =>
  }

  lemma OnLinkFirst(items: seq<Item>)
    requires items != []
    ensures OnLink(items) == if items[0].Data? then items[0].bytes + OnLink(items[1..]) else OnLink(items[1..])
  {
  }

  lemma MoveEndsOnce(d: Direction, e: Event)
    requires EndsOnce(d) && CanMove(d, e)
    ensures EndsOnce(Moved(d, e))
  {
    if e.Receive? {
      var rest := d.link[1..];
      assert forall i :: 0 <= i < |rest| ==> rest[i] == d.link[i + 1];
      assert rest != [] ==> rest[|rest| - 1] == d.link[|d.link| - 1];
      assert d.link[0].Empty? ==> |d.link| == 1;
    }
  }

  lemma MoveCounts(d: Direction, e: Event)
    requires CanMove(d, e)
    ensures
      var d' := Moved(d, e);
      && (d'.sender == Finished <==> d.sender == Finished || e.CountSender?)
      && (d'.receiver == Closed <==> d.receiver == Closed || e.CountReceiver?)
      && (e.CountSender? ==> d.sender != Finished) && (e.CountReceiver? ==> d.receiver != Closed)
  {
  }

  /** No loop ever meets a closed connection. */
  lemma NoErrors(s: State, from: Side)
    requires Inv(s)
    ensures !Enabled(s, WriteError(from)) && !Enabled(s, ReadError(from))
  {
    hide Conserved;
    assert SideOk(s, from) && SideOk(s, Other(from));
  }

  lemma StepKeepsInv(s: State, e: Event)
    requires Inv(s) && Enabled(s, e)
    ensures Inv(Apply(s, e)) && !IsError(e)
  {
    hide InOrder, Moved, CanMove;
    NoErrors(s, e.from);
    var d := From(s, e.from);
    MoveKeepsOrder(d, e);
    MoveCounts(d, e);
  }

  lemma MoveKeepsOrder(d: Direction, e: Event)
    requires InOrder(d) && CanMove(d, e)
    ensures InOrder(Moved(d, e))
  {
    hide Conserved, EndsOnce, Moved, CanMove;
    MoveConserves(d, e);
    MoveEndsOnce(d, e);
  }

  lemma {:induction false} RunKeepsInv(s: State, es: seq<Event>, t: State)
    requires Inv(s) && Reaches(s, es, t)
    ensures Inv(t)
    decreases |es|
  {
    hide Inv;
    if es != [] {
      StepKeepsInv(s, es[0]);
      RunKeepsInv(Apply(s, es[0]), es[1..], t);
    }
  }

  lemma ReachableInv(s: State)
    requires Reachable(s)
    ensures Inv(s)
  {
    var es :| Reaches(Start(), es, s);
    RunKeepsInv(Start(), es, s);
  }

  // -------------------------------------------------------------------------
  // What the tunnel promises

  /** In every interleaving: what was written at one end is a prefix of what was read at the
      other, the end of input is passed on only once everything read was written, an end closes
      its connection only after both its directions finished, and no loop ever ends in error. */
  lemma TunnelIsFaithful(s: State, side: Side)
    requires Reachable(s)
    ensures
      var d := From(s, side);
      && d.written <= d.read
      && (d.receiver != Receiving ==> d.written == d.read && d.sender != Reading)
      && (EndOf(s, side).gone ==> From(s, side).sender == Finished && From(s, Other(side)).receiver == Closed)
      && !s.failed
  {
    ReachableInv(s);
    assert SideOk(s, side);
  }

  /** Once both ends have closed, everything each side read was written at the other. */
  lemma ClosedIsComplete(s: State)
    requires Reachable(s) && s.client.gone && s.server.gone
    ensures s.up.written == s.up.read && s.down.written == s.down.read
  {
    TunnelIsFaithful(s, Client);
    TunnelIsFaithful(s, Server);
  }

  /** Until both ends have closed, some loop can take a step other than reading new input. */
  lemma NeverStuck(s: State)
    requires Reachable(s) && !(s.client.gone && s.server.gone)
    ensures exists e: Event :: Enabled(s, e) && !e.Read?
  {
    ReachableInv(s);
    var side := if !s.client.gone then Client else Server;
    var here, there := From(s, side), From(s, Other(side));
    hide Conserved;
    assert SideOk(s, side) && SideOk(s, Other(side));
    var other := Other(side);
    if here.sender == Reading {
      assert Enabled(s, if here.pending == [] then SendEnd(side) else Send(side));
    } else if here.sender == Finishing {
      assert Enabled(s, CountSender(side));
    } else if there.receiver == Closing {
      assert Enabled(s, CountReceiver(other));
    } else if there.sender == Reading {
      assert Enabled(s, if there.pending == [] then SendEnd(other) else Send(other));
    } else {
      assert Enabled(s, if there.holding == [] then Receive(other) else Write(other));
    }
  }

  function WorkIn(d: Direction): nat {
    (match d.sender case Reading => 6 case Finishing => 1 case Finished => 0)
    + (if d.pending == [] then 0 else 3) + 2 * |d.link| + (if d.holding == [] then 0 else 1)
    + (match d.receiver case Receiving => 3 case Closing => 1 case Closed => 0)
  }

  lemma MoveUsesWork(d: Direction, e: Event)
    requires CanMove(d, e) && !e.Read? && !IsError(e)
    requires d.receiver == Receiving || d.link == []
    ensures WorkIn(Moved(d, e)) < WorkIn(d)
  {
  }

  /** Every step but a read of new input uses up work, so a tunnel whose inputs end closes. */
  lemma WorkRunsOut(s: State, e: Event)
    requires Reachable(s) && Enabled(s, e) && !e.Read?
    ensures var t := Apply(s, e); WorkIn(t.up) + WorkIn(t.down) < WorkIn(s.up) + WorkIn(s.down)
  {
    hide WorkIn, Moved, Conserved, Reachable;
    ReachableInv(s);
    NoErrors(s, e.from);
    assert SideOk(s, e.from);
    MoveUsesWork(From(s, e.from), e);
  }
}
