/**
  The whole pipeline refines one append-only log with a read position per member: every step is one
  move of that simple machine, or invisible to it, and what a connection has been given is always what
  the machine says its reader has read.
 */
module Refinement {
  import opened Messages
  import opened Session
  import opened Pipeline
  import opened PipelineSafety
  import opened Guarantees

  // The simple machine ------------------------------------------------------------------------------

  datatype Reader = Reader(from: nat, seen: nat)

  datatype Board = Board(log: seq<Message>, readers: map<string, Reader>)

  /** Back: a reader who has read nothing yet, and was put at the next entry, starts one entry earlier after all. */
  datatype Move = Stutter | Append(msg: Message) | Open(m: string, at: nat) | Back(m: string) | Advance(m: string)

  predicate Allowed(b: Board, move: Move) {
    match move
    case Stutter => true
    case Append(_) => true
    case Open(m, at) => m !in b.readers && at <= |b.log|
    case Back(m) => m in b.readers && b.readers[m].seen == 0 && b.readers[m].from > 0
    case Advance(m) => m in b.readers && b.readers[m].from + b.readers[m].seen < |b.log|
  }

  function Apply(b: Board, move: Move): Board
    requires Allowed(b, move)
  {
    match move
    case Stutter => b
    case Append(msg) => b.(log := b.log + [msg])
    case Open(m, at) => b.(readers := b.readers[m := Reader(at, 0)])
    case Back(m) => b.(readers := b.readers[m := Reader(b.readers[m].from - 1, 0)])
    case Advance(m) => b.(readers := b.readers[m := b.readers[m].(seen := b.readers[m].seen + 1)])
  }

  predicate Reads(b: Board) {
    forall m :: m in b.readers ==> b.readers[m].from + b.readers[m].seen <= |b.log|
  }

  /** What a reader has read: a piece of the log with no gap. */
  function ReadBy(b: Board, m: string): seq<Message>
    requires Reads(b) && m in b.readers
  {
    b.log[b.readers[m].from..b.readers[m].from + b.readers[m].seen]
  }

  // The refinement ----------------------------------------------------------------------------------

  function ReaderOf(x: Session): Reader {
    Reader(if x.start >= 0 then x.start else 0, |Delivered(x.written)|)
  }

  function BoardOf(s: State): Board {
    Board(s.topic, map m | m in s.ses && Added(s.ses[m]) :: ReaderOf(s.ses[m]))
  }

  /** The move of the simple machine that a step of the pipeline makes. */
  function MoveOf(s: State, l: Label): Move
    requires Enabled(s, l)
  {
    match l
    case Published(m, _) => Append(Outgoing(s.ses[m]).value)
    case Joined(m) =>
      var n := s.inst[s.ses[m].home];
      Open(m, Front(n) + if n.room == RoomIdle then 0 else 1)
    case Notified(i, m) => if m in s.inst[i].room.todo then Stutter else Back(m)
    case Own(m, a) => if a == Write && s.ses[m].listen.out.kind != SendFailed then Advance(m) else Stutter
    case _ => Stutter
  }

  /** At any time a reader has read what its connection was given. */
  lemma BoardShowsDelivery(s: State)
    requires Invariant(s)
    ensures Reads(BoardOf(s))
    ensures forall m :: m in BoardOf(s).readers <==> m in s.ses && Added(s.ses[m])
    ensures forall m :: m in BoardOf(s).readers ==> ReadBy(BoardOf(s), m) == Delivered(s.ses[m].written)
  {
    hide Invariant, Delivered, Added;
    forall m | m in s.ses && Added(s.ses[m])
      ensures 0 <= s.ses[m].start && s.ses[m].start + |Delivered(s.ses[m].written)| <= |s.topic|
      ensures s.topic[s.ses[m].start..s.ses[m].start + |Delivered(s.ses[m].written)|] == Delivered(s.ses[m].written)
    {
      SeenIsContiguous(s, m);
    }
  }

  lemma ActWrites(x: Session, a: Action)
    requires Can(x, a)
    ensures Act(x, a).written == x.written + if a == Write then [x.listen.out] else []
    ensures Act(x, a).start == x.start
  {
    assert x.written + [] == x.written;
  }

  /** What a step writes to a connection, and where it moves a start. */
  lemma ReaderMoves(s: State, l: Label, m: string)
    requires Enabled(s, l) && m in s.ses
    ensures m in Step(s, l).ses
    ensures var x, y := s.ses[m], Step(s, l).ses[m];
            && y.written == x.written + (if l == Own(m, Write) then [x.listen.out] else [])
            && y.start == (match l
                           case Joined(m') =>
                             if m' != m then x.start
                             else Front(s.inst[x.home]) + (if s.inst[x.home].room == RoomIdle then 0 else 1)
                           case Notified(i, m') => if m' == m && m !in s.inst[i].room.todo then x.start - 1 else x.start
                           case _ => x.start)
  {
    hide Act, Can, CanSave, Outgoing, Front;
    var x := s.ses[m];
    assert x.written + [] == x.written;
    if l.Own? && l.m == m {
      ActWrites(x, l.a);
    }
  }

  /** The step moves the reader of `m`. */
  predicate MovesReader(s: State, l: Label, m: string)
    requires Enabled(s, l) && m in s.ses
  {
    match l
    case Joined(m') => m' == m
    case Notified(i, m') => m' == m && m !in s.inst[i].room.todo
    case Own(m', a) => m' == m && a == Write && s.ses[m].listen.out.kind != SendFailed
    case _ => false
  }

  /** The readers other than the one a step moves stay as they are. */
  lemma ReaderStays(s: State, l: Label, m: string)
    requires Invariant(s) && Enabled(s, l) && m in s.ses && !MovesReader(s, l, m)
    ensures m in Step(s, l).ses && Added(Step(s, l).ses[m]) == Added(s.ses[m])
    ensures ReaderOf(Step(s, l).ses[m]) == ReaderOf(s.ses[m])
  {
    hide Stages, Sessions, Repository, Logs, Windows, Rooms, Membership, Added, Step, Delivered, Sound, InHand;
    ReaderMoves(s, l, m);
    SessionMoves(s, l, m);
    if l.Notified? {
      NotifyFinds(s, l.i, l.m);
    }
    DeliveredWrite(s.ses[m], Step(s, l).ses[m]);
  }

  lemma DeliveredWrite(x: Session, y: Session)
    ensures y.written == x.written ==> Delivered(y.written) == Delivered(x.written)
    ensures x.listen.Writing? && y.written == x.written + [x.listen.out] ==>
              Delivered(y.written) == Delivered(x.written) + if x.listen.out.kind == SendFailed then []
                  else [x.listen.out]
  {
    hide Delivered;
    if x.listen.Writing? {
      DeliveredAppend(x.written, x.listen.out);
    }
  }

  lemma JoinOpens(s: State, m: string)
    requires Invariant(s) && Enabled(s, Joined(m))
    ensures var at := Front(s.inst[s.ses[m].home]) + if s.inst[s.ses[m].home].room == RoomIdle then 0 else 1;
            && at <= |s.topic| && !Added(s.ses[m])
            && m in Step(s, Joined(m)).ses && Added(Step(s, Joined(m)).ses[m])
            && ReaderOf(Step(s, Joined(m)).ses[m]) == Reader(at, 0)
  {
    hide Invariant, Stages, Sessions, Repository, Logs, Windows, Rooms, Membership, Added, Delivered, Sound,
      InHand, Front;
    InvariantParts(s);
    SessionOf(s, m);
    JoinPlace(s, s.ses[m].home);
    JoinMoves(s.ses[m], Front(s.inst[s.ses[m].home]) + if s.inst[s.ses[m].home].room == RoomIdle then 0 else 1);
    NothingYet(s.ses[m]);
  }

  lemma NotifyMovesBack(s: State, i: string, m: string)
    requires i in s.inst && MayNotify(s.inst[i], m) && m !in s.inst[i].room.todo
    requires m in s.ses && s.ses[m].listen == Receiving
    requires Invariant(s)
    ensures Added(s.ses[m]) && ReaderOf(s.ses[m]).seen == 0 && ReaderOf(s.ses[m]).from > 0
    ensures var y := Receive(s.ses[m], s.inst[i].room.msg, false);
            Added(y) && ReaderOf(y) == Reader(ReaderOf(s.ses[m]).from - 1, 0)
  {
    hide Invariant, Stages, Sessions, Repository, Logs, Windows, Rooms, Membership, Added, Delivered, Sound, InHand;
    InvariantParts(s);
    SessionOf(s, m);
    NotifyFinds(s, i, m);
    SeenIsContiguous(s, m);
    ReceiveMoves(s.ses[m], s.inst[i].room.msg, false);
  }

  lemma WriteAdvances(topic: seq<Message>, x: Session)
    requires Sound(x) && (Added(x) ==> Window(topic, x))
    requires x.listen.Writing? && x.listen.out.kind != SendFailed
    ensures Added(x) && ReaderOf(x).from + ReaderOf(x).seen < |topic|
    ensures var y := Act(x, Write); Added(y) && ReaderOf(y) == ReaderOf(x).(seen := ReaderOf(x).seen + 1)
  {
    hide Added, Delivered, Sound;
    WriterAdded(x);
    ActKeeps(x, Write);
    DeliveredWrite(x, Act(x, Write));
    assert |InHand(x)| == x.pos - x.start;
  }

  /** What a write of a room message finds. */
  lemma WriterFits(s: State, l: Label)
    requires Invariant(s) && Enabled(s, l) && l.Own? && l.a == Write
    ensures l.m in s.ses && Sound(s.ses[l.m]) && (Added(s.ses[l.m]) ==> Window(s.topic, s.ses[l.m]))
        && s.ses[l.m].listen.Writing?
  {
    hide Invariant, Stages, Sessions, Repository, Logs, Windows, Rooms, Membership, Added, Sound, Window;
    InvariantParts(s);
    SessionOf(s, l.m);
    WindowOf(s, l.m);
  }

  lemma SessionAfter(s: State, l: Label)
    requires Enabled(s, l) && (l.Own? || l.Notified?)
    ensures l.m in s.ses && l.m in Step(s, l).ses
    ensures Step(s, l).ses[l.m] ==
            match l
            case Own(m, a) => Act(s.ses[m], a)
            case Notified(i, m) => Receive(s.ses[m], s.inst[i].room.msg, m in s.inst[i].room.todo)
            case _ => s.ses[l.m]
  {
    hide Can, Act, Receive;
  }

  lemma WriterAdded(x: Session)
    requires Sound(x) && x.listen.Writing?
    ensures Added(x)
  {
    assert Control(x);
  }

  /** Every step of the pipeline is a move of the simple machine. */
  lemma StepIsMove(s: State, l: Label)
    requires Invariant(s) && Enabled(s, l)
    ensures Allowed(BoardOf(s), MoveOf(s, l))
    ensures BoardOf(Step(s, l)) == Apply(BoardOf(s), MoveOf(s, l))
  {
    hide Invariant, Stages, Sessions, Repository, Logs, Windows, Rooms, Membership, Added, Step, ReaderOf, Enabled,
      Outgoing, Front;
    var b, t := BoardOf(s), Step(s, l);
    InstancesStay(s, l);
    LogsMove(s, l);
    MoveFits(s, l);
    forall m ensures m in t.ses && Added(t.ses[m]) <==> m in Apply(b, MoveOf(s, l)).readers
    {
      ReaderFollows(s, l, m);
    }
    forall m | m in t.ses && Added(t.ses[m]) ensures Apply(b, MoveOf(s, l)).readers[m] == ReaderOf(t.ses[m]) {
      ReaderFollows(s, l, m);
    }
    assert BoardOf(t).readers == Apply(b, MoveOf(s, l)).readers;
    assert s.topic + [] == s.topic;
  }

  lemma MoveFits(s: State, l: Label)
    requires Invariant(s) && Enabled(s, l)
    ensures Allowed(BoardOf(s), MoveOf(s, l))
  {
    hide Invariant, Added, Step, ReaderOf, Outgoing, Front, Can, CanSave, Sound, Window;
    if l.Joined? {
      JoinOpens(s, l.m);
    } else if l.Notified? && l.m !in s.inst[l.i].room.todo {
      NotifyMovesBack(s, l.i, l.m);
    } else if l.Own? && l.a == Write && MovesReader(s, l, l.m) {
      WriterFits(s, l);
      WriteAdvances(s.topic, s.ses[l.m]);
    }
  }

  lemma ReaderFollows(s: State, l: Label, m: string)
    requires Invariant(s) && Enabled(s, l) && Allowed(BoardOf(s), MoveOf(s, l))
    ensures var t, b := Step(s, l), Apply(BoardOf(s), MoveOf(s, l));
            && (m in t.ses && Added(t.ses[m]) <==> m in b.readers)
            && (m in b.readers ==> b.readers[m] == ReaderOf(t.ses[m]))
  {
    hide Invariant, Added, Step, ReaderOf, Outgoing, Front, Can, CanSave, Sound, Window;
    if m !in s.ses {
      if m in Step(s, l).ses {
        NewcomersOnly(s, l, m);
        NewSessionDead(l.member, l.i);
      }
    } else if !MovesReader(s, l, m) {
      ReaderStays(s, l, m);
    } else if l.Joined? {
      JoinOpens(s, m);
    } else if l.Notified? {
      NotifyMovesBack(s, l.i, m);
      SessionAfter(s, l);
    } else {
      WriterFits(s, l);
      WriteAdvances(s.topic, s.ses[m]);
      SessionAfter(s, l);
    }
  }

  // Whole runs --------------------------------------------------------------------------------------

  /** A behaviour of the simple machine, with the moves made. */
  ghost predicate IsBehaviour(boards: seq<Board>, moves: seq<Move>) {
    && |boards| == |moves| + 1 && boards[0] == Board([], map[])
    && (forall k :: 0 <= k < |moves| ==> Allowed(boards[k], moves[k]) && boards[k + 1] == Apply(boards[k], moves[k]))
  }

  /**
    Refinement: every run of the pipeline shows a behaviour of the simple machine, in which every reader
    has at every moment read exactly what the member's connection was given.
   */
  lemma RunRefines(r: Run) returns (boards: seq<Board>, moves: seq<Move>)
    requires IsRun(r)
    ensures IsBehaviour(boards, moves) && |boards| == |r.states|
    ensures forall k :: 0 <= k < |r.states| ==>
              && boards[k].log == r.states[k].topic && Reads(boards[k])
              && (forall m :: m in boards[k].readers <==> m in r.states[k].ses && Added(r.states[k].ses[m]))
              && (forall m :: m in boards[k].readers ==> ReadBy(boards[k], m) == Delivered(r.states[k].ses[m].written))
  {
    hide Invariant, Enabled, Step, Delivered, Added, Allowed, Apply, Reads, ReaderOf, MoveOf, ReadBy;
    boards := seq(|r.states|, k requires 0 <= k < |r.states| => BoardOf(r.states[k]));
    moves := seq(
      |r.labels|,
      k requires 0 <= k < |r.labels| && Enabled(r.states[k], r.labels[k]) => MoveOf(r.states[k], r.labels[k]));
    forall k | 0 <= k < |r.labels| ensures Allowed(boards[k], moves[k]) && boards[k + 1] == Apply(boards[k], moves[k]) {
      RunInvariant(r, k);
      assert Enabled(r.states[k], r.labels[k]) && r.states[k + 1] == Step(r.states[k], r.labels[k]);
      StepIsMove(r.states[k], r.labels[k]);
    }
    forall k | 0 <= k < |r.states|
      ensures boards[k].log == r.states[k].topic && Reads(boards[k])
      ensures forall m :: m in boards[k].readers <==> m in r.states[k].ses && Added(r.states[k].ses[m])
      ensures forall m :: m in boards[k].readers ==> ReadBy(boards[k], m) == Delivered(r.states[k].ses[m].written)
    {
      RunInvariant(r, k);
      BoardShowsDelivery(r.states[k]);
    }
    StartsEmpty(r);
  }

  lemma StartsEmpty(r: Run)
    requires IsRun(r)
    ensures BoardOf(r.states[0]) == Board([], map[])
  {
    hide Enabled, Step;
  }

  /**
    The topic, stage by stage: what the room has done, what it holds, what the two forwarding goroutines
    hold, and what is not yet taken are, in this order, everything published since the subscription.
   */
  lemma TopicByStages(r: Run, k: nat, i: string)
    requires IsRun(r) && k < |r.states| && i in r.states[k].inst
    ensures var s, n := r.states[k], r.states[k].inst[i];
            n.base <= n.taken <= |s.topic|
            && s.topic[n.base..] == n.handled + InRoom(n) + AsSeq(n.sub) + AsSeq(n.queue) + s.topic[n.taken..]
  {
    hide IsRun, Invariant, Stages, Sessions, Repository, Logs, Windows, Rooms, Membership;
    RunInvariant(r, k);
    InvariantParts(r.states[k]);
    ChainOf(r.states[k], i);
    var s, n := r.states[k], r.states[k].inst[i];
    assert s.topic[n.base..] == s.topic[n.base..n.taken] + s.topic[n.taken..];
  }
}
