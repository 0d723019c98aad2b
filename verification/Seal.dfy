/**
 The sealed read connection: an authorizer that lets a statement read and nothing
 else, a flag that lets the handle's own transaction control past it, and a
 recorder that may stand in for it. Statements are any a caller can compose, and
 other connections commit at any moment.
 */
module Seal {
  import opened Prelude

  // ----- the authorizer

  /** What SQLite asks the authorizer about, while it prepares a statement. */
  datatype Action =
    | Read(table: string, column: string)
    | Select
    | Function(function_name: string)
    | Recursive
    | Pragma(pragma: string, value: Option<string>)
    | Transaction
    | Savepoint
    | Modify(table: string)
    | Attach
    | Unknown(code: nat)

  /** The one thing a read-only connection may do: read rows. */
  predicate ReadsOnly(a: Action) {
    a.Read? || a.Select? || a.Function? || a.Recursive? || a == Pragma("data_version", None)
  }

  predicate SealedVerdict(control: bool, a: Action) {
    (a.Transaction? && control) || ReadsOnly(a)
  }

  // ----- statements

  datatype Operation = Begin | Commit | Rollback

  /** A statement, by what it does when it runs. A query may be about anything
      that is asked for in reading. */
  datatype Statement =
    | Query(actions: seq<Action>)
    | Control(operation: Operation)
    | Mark(release: bool)
    | Change(before: seq<Action>, table: string, after: seq<Action>)
    | Setting(pragma: string, value: Option<string>)
    | Attaching(file: string)
  {
    /** What SQLite asks about it: every effect has a question of its own. */
    function Actions(): seq<Action> {
      match this
      case Query(actions) => actions
      case Control(_) => [Transaction]
      case Mark(_) => [Savepoint]
      case Change(before, table, after) => before + [Modify(table)] + after
      case Setting(pragma, value) => [Pragma(pragma, value)]
      case Attaching(_) => [Attach]
    }

    /** The one setting-shaped pragma that sets nothing is a query. */
    predicate WellFormed() {
      Setting? ==> !(pragma == "data_version" && value == None)
    }
  }

  // ----- a connection

  datatype Column = Column(table: string, column: string)

  /** Who answers the authorizer's questions; a recorder writes the columns it is
      asked about into a sink of its own. */
  datatype Authorizer = Nobody | Own | Recorder(sink: nat)

  datatype Seat = Seat(
    sealed: bool,
    authorizer: Authorizer,
    control: bool,
    inTransaction: bool,
    transactions: nat,
    snapshot: Option<nat>,
    committed: nat,
    writes: nat,
    settings: nat,
    sinks: seq<set<Column>>,
    answers: seq<nat>)
  {
    /** What the authorizer in place answers. A recorder answers as the
        connection's own does. */
    predicate Allows(a: Action) {
      match authorizer
      case Nobody => true
      case Own => SealedVerdict(control, a)
      case Recorder(_) => !sealed || SealedVerdict(control, a)
    }

    /** The sinks after one question. */
    function Heard(a: Action): seq<set<Column>> {
      if authorizer.Recorder? && authorizer.sink < |sinks| && a.Read?
      then sinks[authorizer.sink := sinks[authorizer.sink] + {Column(a.table, a.column)}]
      else sinks
    }

    /** A connection that answers for reads and nothing else. */
    ghost predicate Valid() {
      sealed && !control && !authorizer.Nobody?
    }
  }

  /** Prepare: ask about each action in turn, stopping at the first denied. */
  function Prepare(seat: Seat, actions: seq<Action>): (r: (Seat, bool))
    ensures r.1 <==> forall i :: 0 <= i < |actions| ==> seat.Allows(actions[i])
    ensures r.0 == seat.(sinks := r.0.sinks)
    decreases |actions|
  {
    if actions == [] then (seat, true)
    else
      var heard := seat.(sinks := seat.Heard(actions[0]));
      if !seat.Allows(actions[0]) then (heard, false) else Prepare(heard, actions[1..])
  }

  /** The committed state a statement of this connection reads: the one its
      transaction has settled on, or the latest. */
  function Sees(seat: Seat): nat {
    if seat.inTransaction && seat.snapshot.Some? then seat.snapshot.value else seat.committed
  }

  /** What a prepared statement does when it runs to its end. The first read in a
      transaction settles what every later one sees. */
  function Effect(seat: Seat, s: Statement): Seat {
    match s
    case Query(_) =>
      seat.(snapshot := if seat.inTransaction then Some(Sees(seat)) else None, answers := seat.answers + [Sees(seat)])
    case Control(operation) =>
      if operation.Begin? == seat.inTransaction then seat
      else
        seat.(inTransaction := operation.Begin?, snapshot := None,
              transactions := seat.transactions + (if operation.Begin? then 1 else 0))
    case Mark(release) => seat.(inTransaction := !release, snapshot := None, transactions := seat.transactions + 1)
    case Change(_, _, _) => seat.(writes := seat.writes + 1, committed := seat.committed + 1, snapshot := None)
    case Setting(_, _) => seat.(settings := seat.settings + 1)
    case Attaching(_) => seat.(settings := seat.settings + 1)
  }

  /** How a prepared statement ends: it works; it fails, a read perhaps after some
      rows; or it fails and the driver abandons the transaction with it, as it does
      for some errors of the disk and of memory. */
  datatype Fate = Works | Fails(began: bool) | Abandons(began: bool)

  function Ran(seat: Seat, s: Statement, fate: Fate): Seat {
    match fate
    case Works => Effect(seat, s)
    case Fails(began) => if began && s.Query? then Effect(seat, s) else seat
    case Abandons(began) =>
      (if began && s.Query? then Effect(seat, s) else seat).(inTransaction := false, snapshot := None)
  }

  /** Prepare a statement and run it, if it may be. */
  function Perform(seat: Seat, s: Statement, fate: Fate): Seat {
    var prepared := Prepare(seat, s.Actions());
    if prepared.1 then Ran(prepared.0, s, fate) else prepared.0
  }

  // ----- what callers do with it

  datatype Ending = Returns | Fails | Unwinds

  /** What happens between a snapshot's opening and its close: a statement of the
      caller's; another connection's commit; the handle asked to open again; a
      recording, whose `prepare` is the caller's code, may end in any way, and is
      begun and undone by installs the driver may refuse. */
  datatype Act =
    | Runs(statement: Statement, fate: Fate)
    | Elsewhere
    | OpensAgain(fate: Fate)
    | Records(prepare: seq<Act>, ending: Ending, installs: bool, restores: bool)

  function Recording(seat: Seat): Seat {
    seat.(authorizer := Recorder(|seat.sinks|), sinks := seat.sinks + [{}])
  }

  /** The connection's own authorizer again, unless the driver refuses it. */
  function Restored(seat: Seat, restores: bool): Seat {
    if restores then seat.(authorizer := if seat.sealed then Own else Nobody) else seat
  }

  function Did(seat: Seat, act: Act): Seat
    decreases act
  {
    match act
    case Runs(s, fate) => Perform(seat, s, fate)
    case Elsewhere => seat.(committed := seat.committed + 1)
    case OpensAgain(fate) => Opened(seat, fate)
    case Records(prepare, _, installs, restores) =>
      if installs then Restored(DidAll(Recording(seat), prepare), restores) else seat
  }

  function DidAll(seat: Seat, acts: seq<Act>): Seat
    decreases acts
  {
    if acts == [] then seat else DidAll(Did(seat, acts[0]), acts[1..])
  }

  /** `open_snapshot`, as far as the connection goes: refused in a transaction, and
      otherwise a deferred begin with the flag up for its length. */
  function Opened(seat: Seat, fate: Fate): Seat {
    if seat.inTransaction then seat
    else Perform(seat.(control := true), Control(Begin), fate).(control := false)
  }

  ghost predicate Composable(acts: seq<Act>)
    decreases acts
  {
    forall i :: 0 <= i < |acts| ==>
      match acts[i]
      case Runs(s, _) => s.WellFormed()
      case Records(prepare, _, _, _) => Composable(prepare)
      case _ => true
  }

  // ----- nothing written

  /** `t` is what `s` may have become: still sealed, with nothing written or set, no
      answer taken back, and no transaction that was not begun. */
  ghost predicate OnlyRead(s: Seat, t: Seat) {
    && t.Valid()
    && t.writes == s.writes && t.settings == s.settings
    && s.committed <= t.committed
    && s.answers <= t.answers
    && s.transactions <= t.transactions
    && (t.transactions == s.transactions && t.inTransaction ==> s.inTransaction)
  }

  lemma PerformOnlyReads(seat: Seat, s: Statement, fate: Fate)
    requires seat.Valid() && s.WellFormed()
    ensures OnlyRead(seat, Perform(seat, s, fate))
    ensures Perform(seat, s, fate).transactions == seat.transactions
    ensures Prepare(seat, s.Actions()).1 ==> s.Query?
  {
    PermittedExactly(seat, s);
  }

  lemma OpenedOnlyReads(seat: Seat, fate: Fate)
    requires seat.Valid()
    ensures OnlyRead(seat, Opened(seat, fate))
    ensures seat.inTransaction ==> Opened(seat, fate) == seat
  {
    TransactionControlPasses(seat.(control := true));
  }

  /** Whatever the caller composes, however its statements and recordings end, in a
      transaction or out of one: nothing is written and no setting moves. */
  lemma {:induction false} SealHolds(seat: Seat, acts: seq<Act>)
    requires seat.Valid() && Composable(acts)
    ensures OnlyRead(seat, DidAll(seat, acts))
    decreases acts, 1
  {
    if acts != [] {
      ActOnlyReads(seat, acts);
      assert Composable(acts[1..]);
      SealHolds(Did(seat, acts[0]), acts[1..]);
    }
  }

  lemma {:induction false} ActOnlyReads(seat: Seat, acts: seq<Act>)
    requires seat.Valid() && acts != [] && Composable(acts)
    ensures OnlyRead(seat, Did(seat, acts[0]))
    decreases acts, 0
  {
    match acts[0] {
      case Runs(s, fate) => PerformOnlyReads(seat, s, fate);
      case Elsewhere =>
      case OpensAgain(fate) => OpenedOnlyReads(seat, fate);
      case Records(prepare, _, installs, _) =>
        if installs {
          SealHolds(Recording(seat), prepare);
        }
    }
  }

  // ----- one snapshot

  /** And the transaction that was open still is, and every answer since was given
      from one committed state, no older than what was committed at `s`. */
  ghost predicate OneSnapshot(s: Seat, t: Seat) {
    && OnlyRead(s, t) && t.inTransaction && t.transactions == s.transactions
    && (s.snapshot.Some? ==> t.snapshot == s.snapshot)
    && (t.snapshot.Some? && s.snapshot.None? ==> s.committed <= t.snapshot.value <= t.committed)
    && (forall i :: |s.answers| <= i < |t.answers| ==> t.snapshot == Some(t.answers[i]))
  }

  lemma OneSnapshotComposes(s: Seat, t: Seat, u: Seat)
    requires OneSnapshot(s, t) && OneSnapshot(t, u)
    ensures OneSnapshot(s, u)
  {
    forall i | |s.answers| <= i < |u.answers| ensures u.snapshot == Some(u.answers[i]) {
      if i < |t.answers| {
        assert u.answers[i] == t.answers[i];
      }
    }
  }

  /** The driver abandons the transaction at some statement that may be run. */
  predicate Lost(seat: Seat, acts: seq<Act>)
    decreases acts
  {
    acts != [] && (LostBy(seat, acts[0]) || Lost(Did(seat, acts[0]), acts[1..]))
  }

  predicate LostBy(seat: Seat, act: Act)
    decreases act
  {
    match act
    case Runs(s, fate) => fate.Abandons? && Prepare(seat, s.Actions()).1
    case Records(prepare, _, installs, _) => installs && Lost(Recording(seat), prepare)
    case _ => false
  }

  /** The transaction that was open is not: it has ended, or it is another one. */
  predicate Parted(s: Seat, t: Seat) {
    t.transactions != s.transactions || !t.inTransaction
  }

  /** Inside an open snapshot, whatever the caller composes and however it ends: the
      transaction stays open and all reads answer from one state exactly when the
      driver abandons the transaction at none of the caller's statements. */
  lemma SnapshotHoldsIff(seat: Seat, acts: seq<Act>)
    requires seat.Valid() && seat.inTransaction && Composable(acts)
    ensures OneSnapshot(seat, DidAll(seat, acts)) <==> !Lost(seat, acts)
    ensures Parted(seat, DidAll(seat, acts)) <==> Lost(seat, acts)
  {
    KeepsOrParts(seat, acts);
  }

  lemma {:induction false} KeepsOrParts(seat: Seat, acts: seq<Act>)
    requires seat.Valid() && seat.inTransaction && Composable(acts)
    ensures if Lost(seat, acts) then Parted(seat, DidAll(seat, acts)) else OneSnapshot(seat, DidAll(seat, acts))
    decreases acts, 1
  {
    if acts != [] {
      var next, last := Did(seat, acts[0]), DidAll(seat, acts);
      ActOnlyReads(seat, acts);
      ActKeepsOrParts(seat, acts);
      assert Composable(acts[1..]);
      SealHolds(next, acts[1..]);
      if !LostBy(seat, acts[0]) {
        KeepsOrParts(next, acts[1..]);
        if !Lost(next, acts[1..]) {
          OneSnapshotComposes(seat, next, last);
        }
      }
    }
  }

  lemma {:induction false} ActKeepsOrParts(seat: Seat, acts: seq<Act>)
    requires seat.Valid() && seat.inTransaction && acts != [] && Composable(acts)
    ensures if LostBy(seat, acts[0]) then Parted(seat, Did(seat, acts[0])) else OneSnapshot(seat, Did(seat, acts[0]))
    decreases acts, 0
  {
    match acts[0] {
      case Runs(s, fate) => PerformOnlyReads(seat, s, fate);
      case Elsewhere =>
      case OpensAgain(fate) => OpenedOnlyReads(seat, fate);
      case Records(prepare, _, installs, _) =>
        if installs {
          KeepsOrParts(Recording(seat), prepare);
          SealHolds(Recording(seat), prepare);
        }
    }
  }

  /** And when it does, reads can differ: a read, the abandonment, a commit elsewhere,
      and the same read again. */
  lemma LostReadsDiffer(seat: Seat, s: Statement) returns (acts: seq<Act>)
    requires seat.Valid() && seat.inTransaction && s.Query?
    requires seat.snapshot.Some? ==> seat.snapshot.value <= seat.committed
    requires forall a :: a in s.actions ==>
               a.Read? || a.Select? || a.Function? || a.Recursive? || a == Pragma("data_version", None)
    ensures Composable(acts) && Lost(seat, acts)
    ensures DidAll(seat, acts).answers == seat.answers + [Sees(seat), seat.committed + 1]
    ensures Sees(seat) != seat.committed + 1
  {
    var u := Perform(seat, s, Works);
    var v := Perform(u, s, Abandons(false));
    var w := v.(committed := v.committed + 1);
    PermittedExactly(seat, s);
    PermittedExactly(u, s);
    PermittedExactly(w, s);
    acts := [Runs(s, Works), Runs(s, Abandons(false)), Elsewhere, Runs(s, Works)];
    assert acts[1..] == [Runs(s, Abandons(false)), Elsewhere, Runs(s, Works)];
    assert acts[1..][1..] == [Elsewhere, Runs(s, Works)];
    assert acts[1..][1..][1..] == [Runs(s, Works)] && acts[1..][1..][1..][1..] == [];
    assert Did(seat, acts[0]) == u && Did(u, acts[1]) == v && Did(v, acts[2]) == w;
    assert DidAll(w, [Runs(s, Works)]) == DidAll(Perform(w, s, Works), []);
    assert DidAll(v, acts[2..]) == DidAll(w, [Runs(s, Works)]) by { assert acts[2..][1..] == [Runs(s, Works)]; }
    assert DidAll(u, acts[1..]) == DidAll(v, acts[2..]) by { assert acts[1..][1..] == acts[2..]; }
  }

  /** What a sealed connection lets a caller run is exactly the queries each of whose
      questions is about a column read, a select, a function, a recursion or the
      pragma that reports other connections' commits, asked with no value; and each
      that works is answered from what the connection sees. */
  lemma PermittedExactly(seat: Seat, s: Statement)
    requires seat.Valid() && s.WellFormed()
    ensures Prepare(seat, s.Actions()).1 <==>
              s.Query? && forall a :: a in s.actions ==>
                a.Read? || a.Select? || a.Function? || a.Recursive? || a == Pragma("data_version", None)
    ensures |Perform(seat, s, Works).answers| > |seat.answers| <==> Prepare(seat, s.Actions()).1
    ensures Prepare(seat, s.Actions()).1 ==> Perform(seat, s, Works).answers == seat.answers + [Sees(seat)]
  {
    var actions := s.Actions();
    match s {
      case Query(_) =>
        assert forall i :: 0 <= i < |actions| ==> (seat.Allows(actions[i]) ==> ReadsOnly(actions[i]));
        assert forall a :: a in actions ==> exists i :: 0 <= i < |actions| && actions[i] == a;
      case Change(before, table, _) => assert actions[|before|] == Modify(table);
      case _ => assert !seat.Allows(actions[0]);
    }
  }

  // ----- the flag

  /** The flag is down wherever the caller's code runs: at each of its acts, those
      inside a recording included, on a sealed connection or any other. */
  lemma {:induction false} FlagStaysDown(seat: Seat, acts: seq<Act>)
    requires !seat.control
    ensures !DidAll(seat, acts).control && DidAll(seat, acts).sealed == seat.sealed
    decreases acts
  {
    if acts != [] {
      if acts[0].Records? && acts[0].installs {
        FlagStaysDown(Recording(seat), acts[0].prepare);
      }
      FlagStaysDown(Did(seat, acts[0]), acts[1..]);
    }
  }

  // ----- what a recording reports

  function ReadsOf(actions: seq<Action>): set<Column> {
    set a | a in actions && a.Read? :: Column(a.table, a.column)
  }

  /** No recording is begun inside. */
  predicate Flat(acts: seq<Act>) {
    forall i :: 0 <= i < |acts| && acts[i].Records? ==> !acts[i].installs
  }

  lemma {:induction false} PrepareRecords(seat: Seat, actions: seq<Action>)
    requires seat.authorizer.Recorder? && seat.authorizer.sink < |seat.sinks|
    ensures var (after, allowed) := Prepare(seat, actions);
            var k := seat.authorizer.sink;
            && |after.sinks| == |seat.sinks|
            && seat.sinks[k] <= after.sinks[k] <= seat.sinks[k] + ReadsOf(actions)
            && (allowed ==> after.sinks[k] == seat.sinks[k] + ReadsOf(actions))
    decreases |actions|
  {
    if actions != [] {
      var heard := seat.(sinks := seat.Heard(actions[0]));
      assert actions == [actions[0]] + actions[1..];
      assert ReadsOf(actions) == ReadsOf([actions[0]]) + ReadsOf(actions[1..]);
      PrepareRecords(heard, actions[1..]);
    }
  }

  function AllReads(acts: seq<Act>): set<Column> {
    if acts == [] then {}
    else (if acts[0].Runs? then ReadsOf(acts[0].statement.Actions()) else {}) + AllReads(acts[1..])
  }

  /** A recording, on a sealed connection or any other, reports every column that a
      statement which may be prepared reads, and no column that no statement names. */
  lemma {:induction false} RecordingCovers(seat: Seat, acts: seq<Act>, i: nat)
    requires !seat.control && seat.authorizer.Recorder? && seat.authorizer.sink < |seat.sinks|
    requires Flat(acts)
    ensures var k := seat.authorizer.sink;
            var after := DidAll(seat, acts);
            && |after.sinks| == |seat.sinks|
            && seat.sinks[k] <= after.sinks[k] <= seat.sinks[k] + AllReads(acts)
            && (i < |acts| && acts[i].Runs? && (forall a :: a in acts[i].statement.Actions() ==> seat.Allows(a)) ==>
                  ReadsOf(acts[i].statement.Actions()) <= after.sinks[k])
    decreases |acts|
  {
    if acts != [] {
      var next := Did(seat, acts[0]);
      RecordingStep(seat, acts[0]);
      assert next.authorizer == seat.authorizer && next.sealed == seat.sealed && !next.control;
      assert forall a :: next.Allows(a) == seat.Allows(a);
      RecordingCovers(next, acts[1..], if i == 0 then |acts| else i - 1);
      if 0 < i < |acts| {
        assert acts[i] == acts[1..][i - 1];
      }
    }
  }

  lemma RecordingStep(seat: Seat, act: Act)
    requires !seat.control && seat.authorizer.Recorder? && seat.authorizer.sink < |seat.sinks|
    requires act.Records? ==> !act.installs
    ensures var next, k := Did(seat, act), seat.authorizer.sink;
            && next.authorizer == seat.authorizer && next.sealed == seat.sealed && !next.control
            && |next.sinks| == |seat.sinks|
            && seat.sinks[k] <= next.sinks[k]
            && next.sinks[k] <= seat.sinks[k] + (if act.Runs? then ReadsOf(act.statement.Actions()) else {})
            && (act.Runs? && (forall a :: a in act.statement.Actions() ==> seat.Allows(a)) ==>
                  ReadsOf(act.statement.Actions()) <= next.sinks[k])
  {
    match act {
      case Runs(s, _) => PrepareRecords(seat, s.Actions());
      case OpensAgain(_) => TransactionControlPasses(seat.(control := true));
      case _ =>
    }
  }

  /** Why a recording inside a recording is not one to make: the inner one, undone,
      leaves the connection's own authorizer, and the outer one hears no more. */
  lemma NestingBlinds(seat: Seat, prepare: seq<Act>, ending: Ending, s: Statement, fate: Fate, k: nat)
    requires seat.sealed && !seat.control
    ensures var inside := Did(seat, Records(prepare, ending, true, true));
            inside.authorizer == Own
            && (k < |inside.sinks| ==> k < |Perform(inside, s, fate).sinks| && Perform(inside, s, fate).sinks[k] == inside.sinks[k])
  {
    FlagStaysDown(Recording(seat), prepare);
    OwnHearsNothing(Did(seat, Records(prepare, ending, true, true)), s.Actions());
  }

  lemma {:induction false} OwnHearsNothing(seat: Seat, actions: seq<Action>)
    requires seat.authorizer == Own
    ensures Prepare(seat, actions).0 == seat
    decreases |actions|
  {
    if actions != [] {
      assert seat.(sinks := seat.Heard(actions[0])) == seat;
      OwnHearsNothing(seat, actions[1..]);
    }
  }

  // ----- the handle

  datatype Error = Sql | Lifecycle | FromPrepare

  datatype Result<+T> = Ok(value: T) | Err(error: Error) | Unwound

  class Handle {
    const sealed: bool
    var authorizer: Authorizer
    var control: bool
    var inTransaction: bool
    var transactions: nat
    var snapshot: Option<nat>
    var committed: nat
    var writes: nat
    var settings: nat
    var sinks: seq<set<Column>>
    var answers: seq<nat>

    function Now(): Seat
      reads this
    {
      Seat(sealed, authorizer, control, inTransaction, transactions, snapshot, committed, writes, settings, sinks, answers)
    }

    /** Bind an open connection, sealing it where it is read-only. */
    constructor (readOnly: bool, committed: nat)
      ensures Now() == Seat(readOnly, if readOnly then Own else Nobody, false, false, 0, None, committed, 0, 0, [], [])
      ensures readOnly ==> Now().Valid()
    {
      sealed, authorizer := readOnly, if readOnly then Own else Nobody;
      control, inTransaction, transactions, snapshot, this.committed := false, false, 0, None, committed;
      writes, settings, sinks, answers := 0, 0, [], [];
    }

    /** Ask the authorizer about each action. */
    method Ask(actions: seq<Action>) returns (allowed: bool)
      modifies this
      ensures Now() == Prepare(old(Now()), actions).0 && allowed == Prepare(old(Now()), actions).1
    {
      var i := 0;
      while i < |actions|
        invariant 0 <= i <= |actions|
        invariant Now() == old(Now()).(sinks := sinks)
        invariant Prepare(old(Now()), actions) == Prepare(Now(), actions[i..])
      {
        assert actions[i..][1..] == actions[i + 1..];
        var a := actions[i];
        sinks := Now().Heard(a);
        if !Now().Allows(a) {
          return false;
        }
        i := i + 1;
      }
      return true;
    }

    /** Prepare a statement and run it, to whatever end. */
    method Execute(s: Statement, fate: Fate) returns (r: Result<()>)
      modifies this
      ensures Now() == Perform(old(Now()), s, fate)
      ensures r == if fate.Works? && Prepare(old(Now()), s.Actions()).1 then Ok(()) else Err(Sql)
    {
      var allowed := Ask(s.Actions());
      if !allowed {
        return Err(Sql);
      }
      if fate.Works? || (fate.began && s.Query?) {
        Take(s);
      }
      if fate.Abandons? {
        inTransaction, snapshot := false, None;
      }
      return if fate.Works? then Ok(()) else Err(Sql);
    }

    /** Run a prepared statement to its end. */
    method Take(s: Statement)
      modifies this
      ensures Now() == Effect(old(Now()), s)
    {
      match s {
        case Query(_) =>
          var seen := if inTransaction && snapshot.Some? then snapshot.value else committed;
          snapshot := if inTransaction then Some(seen) else None;
          answers := answers + [seen];
        case Control(operation) =>
          if operation.Begin? != inTransaction {
            inTransaction, snapshot := operation.Begin?, None;
            transactions := transactions + (if operation.Begin? then 1 else 0);
          }
        case Mark(release) =>
          inTransaction, snapshot, transactions := !release, None, transactions + 1;
        case Change(_, _, _) =>
          writes, committed, snapshot := writes + 1, committed + 1, None;
        case Setting(_, _) =>
          settings := settings + 1;
        case Attaching(_) =>
          settings := settings + 1;
      }
    }

    /** Open the snapshot a run of reads answers from. */
    method OpenSnapshot(fate: Fate) returns (r: Result<()>)
      requires !control
      modifies this
      ensures !control && Now() == Opened(old(Now()), fate)
      ensures r == if old(inTransaction) then Err(Lifecycle) else if fate.Works? then Ok(()) else Err(Sql)
      ensures r.Ok? ==>
                Now() == old(Now()).(inTransaction := true, snapshot := None, transactions := old(transactions) + 1)
      ensures !r.Ok? ==> inTransaction == old(inTransaction) && transactions == old(transactions) && answers == old(answers)
    {
      if inTransaction {
        return Err(Lifecycle);
      }
      control := true;
      TransactionControlPasses(Now());
      r := Execute(Control(Begin), fate);
      control := false;
    }

    /** End the snapshot. A handle without one ends nothing. */
    method CloseSnapshot(fate: Fate) returns (r: Result<()>)
      requires !control
      modifies this
      ensures !control && answers == old(answers)
      ensures r == if old(inTransaction) && !fate.Works? then Err(Sql) else Ok(())
      ensures !old(inTransaction) ==> Now() == old(Now())
      ensures old(inTransaction) && !fate.Fails? ==> Now() == old(Now()).(inTransaction := false, snapshot := None)
      ensures old(inTransaction) && fate.Fails? ==> Now() == old(Now())
    {
      if !inTransaction {
        return Ok(());
      }
      control := true;
      TransactionControlPasses(Now());
      r := Execute(Control(Rollback), fate);
      control := false;
    }

    /** Record the columns that what `prepare` prepares reads. The connection's own
        authorizer is back however `prepare` ended, if the driver lets it be. */
    method RecordingReads(prepare: seq<Act>, ending: Ending, installs: bool, restores: bool)
      returns (r: Result<set<Column>>)
      requires !control
      modifies this
      ensures !control && Now() == Did(old(Now()), Records(prepare, ending, installs, restores))
      ensures r.Ok? <==> installs && ending.Returns? && restores
      ensures r.Unwound? <==> installs && ending.Unwinds?
      ensures r.Err? ==> r == if installs && ending.Fails? then Err(FromPrepare) else Err(Sql)
      ensures r.Ok? ==>
                var k := |old(sinks)|;
                k < |sinks| && r.value == sinks[k] && authorizer == (if sealed then Own else Nobody)
      decreases prepare, 2
    {
      if !installs {
        return Err(Sql);
      }
      var k := |sinks|;
      authorizer := Recorder(k);
      sinks := sinks + [{}];
      SinksStay(Now(), prepare);
      CallersCode(prepare);
      if restores {
        authorizer := if sealed then Own else Nobody;
      }
      if ending.Unwinds? {
        return Unwound;
      }
      if ending.Fails? {
        return Err(FromPrepare);
      }
      if !restores {
        return Err(Sql);
      }
      return Ok(sinks[k]);
    }

    /** The caller's own code: it is never entered with the flag up. */
    method CallersCode(acts: seq<Act>)
      requires !control
      modifies this
      ensures !control && Now() == DidAll(old(Now()), acts)
      decreases acts, 1
    {
      if acts == [] {
        return;
      }
      match acts[0] {
        case Runs(s, fate) =>
          var _ := Execute(s, fate);
        case Elsewhere =>
          committed := committed + 1;
        case OpensAgain(fate) =>
          var _ := OpenSnapshot(fate);
        case Records(prepare, ending, installs, restores) =>
          var _ := RecordingReads(prepare, ending, installs, restores);
      }
      CallersCode(acts[1..]);
    }

    /** A snapshot from its opening to its close, with the caller's code between, and
        any of the three failing. Nothing is written whatever happens. From an opening
        that works until a close that does, if the driver abandons the transaction at
        none of the caller's statements, every read answers from one committed state,
        no older than the opening. */
    method Snapshot(opens: Fate, acts: seq<Act>, closes: Fate) returns (r: Result<Option<nat>>)
      requires Now().Valid() && !inTransaction && Composable(acts)
      modifies this
      ensures Now().Valid() && writes == old(writes) && settings == old(settings) && old(answers) <= answers
      ensures !opens.Works? ==> r == Err(Sql) && answers == old(answers) && !inTransaction
      ensures opens.Works? ==>
                var ended := DidAll(Opened(old(Now()), opens), acts);
                && (r.Ok? ==> r.value == ended.snapshot)
                && Now() == if ended.inTransaction && !closes.Fails?
                            then ended.(inTransaction := false, snapshot := None) else ended
      ensures opens.Works? && !Lost(Opened(old(Now()), opens), acts) ==>
                && (if closes.Works? then r.Ok? else r == Err(Sql))
                && (inTransaction <==> closes.Fails?)
                && exists seen: Option<nat> ::
                     && (r.Ok? ==> r.value == seen)
                     && (forall i :: |old(answers)| <= i < |answers| ==> seen == Some(answers[i]))
                     && (seen.Some? ==> old(committed) <= seen.value <= committed)
    {
      var begin := OpenSnapshot(opens);
      if !begin.Ok? {
        return Err(Sql);
      }
      ghost var begun := Now();
      SealHolds(begun, acts);
      SnapshotHoldsIff(begun, acts);
      CallersCode(acts);
      var seen := snapshot;
      var closed := CloseSnapshot(closes);
      r := if closed.Ok? then Ok(seen) else Err(Sql);
    }
  }

  lemma TransactionControlPasses(seat: Seat)
    requires seat.control
    ensures Prepare(seat, [Transaction]) == (seat, true)
  {
    assert seat.(sinks := seat.Heard(Transaction)) == seat;
    assert Prepare(seat, [Transaction][1..]) == (seat, true);
  }

  lemma {:induction false} SinksStay(seat: Seat, acts: seq<Act>)
    ensures |seat.sinks| <= |DidAll(seat, acts).sinks|
    decreases acts
  {
    if acts != [] {
      match acts[0] {
        case Runs(s, _) => HearingKeepsSinks(seat, s.Actions());
        case Records(prepare, _, installs, _) => if installs { SinksStay(Recording(seat), prepare); }
        case OpensAgain(_) => HearingKeepsSinks(seat.(control := true), [Transaction]);
        case Elsewhere =>
      }
      SinksStay(Did(seat, acts[0]), acts[1..]);
    }
  }

  lemma {:induction false} HearingKeepsSinks(seat: Seat, actions: seq<Action>)
    ensures |Prepare(seat, actions).0.sinks| == |seat.sinks|
    decreases |actions|
  {
    if actions != [] {
      HearingKeepsSinks(seat.(sinks := seat.Heard(actions[0])), actions[1..]);
    }
  }
}
