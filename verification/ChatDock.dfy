/**
 The dock that talks to Sessions: what its handlers do to its state when the
 operator selects, sends and stops, and when answers and frames arrive in any
 order.  Nothing that belongs to one Session may end up in another's thread.
 */
module ChatDock {
  import opened Options
  import opened SessionScope

  datatype Command = Command(session: string, id: string, sequence: Option<int>)
  datatype Detail = Detail(session: string, ended: bool)
  datatype Line = Line(session: string, text: string)

  // ------------------------------------------------------------------ //
  // The command list
  // ------------------------------------------------------------------ //

  /** `a.sequence ?? 0` */
  function Order(c: Command): int {
    if c.sequence.Some? then c.sequence.value else 0
  }

  predicate Sorted(cs: seq<Command>) {
    forall i, j :: 0 <= i < j < |cs| ==> Order(cs[i]) <= Order(cs[j])
  }

  predicate Unique(cs: seq<Command>) {
    forall i, j :: 0 <= i < j < |cs| ==> cs[i].id != cs[j].id
  }

  predicate AllOf(cs: seq<Command>, session: string) {
    forall k :: 0 <= k < |cs| ==> cs[k].session == session
  }

  function Others(cs: seq<Command>, id: string): seq<Command> {
    if cs == [] then [] else (if cs[0].id == id then [] else [cs[0]]) + Others(cs[1..], id)
  }

  /** A stable sort puts `c`, which came last, after everything of its own order. */
  function Insert(cs: seq<Command>, c: Command): seq<Command> {
    if cs == [] then [c]
    else if Order(c) < Order(cs[0]) then [c] + cs
    else [cs[0]] + Insert(cs[1..], c)
  }

  function SortAll(cs: seq<Command>): seq<Command> {
    if cs == [] then [] else Insert(SortAll(cs[..|cs| - 1]), cs[|cs| - 1])
  }

  function Upserted(cs: seq<Command>, c: Command): seq<Command> {
    SortAll(Others(cs, c.id) + [c])
  }

  lemma {:induction false} InsertSorts(cs: seq<Command>, c: Command)
    requires Sorted(cs)
    ensures Sorted(Insert(cs, c)) && multiset(Insert(cs, c)) == multiset(cs) + multiset{c}
  {
    if cs != [] {
      assert cs == [cs[0]] + cs[1..];
      if Order(c) >= Order(cs[0]) {
        InsertSorts(cs[1..], c);
        FirstOfSorted(cs, c, Insert(cs[1..], c));
      }
    }
  }

  lemma FirstOfSorted(cs: seq<Command>, c: Command, r: seq<Command>)
    requires cs != [] && Sorted(cs) && Order(c) >= Order(cs[0]) && Sorted(r) && multiset(r) == multiset(cs[1..]) + multiset{c}
    ensures Sorted([cs[0]] + r)
  {
    forall k | 0 <= k < |r| ensures Order(cs[0]) <= Order(r[k]) {
      assert r[k] in multiset(r);
      assert r[k] == c || r[k] in cs[1..];
    }
  }

  lemma {:induction false} SortSorts(cs: seq<Command>)
    ensures Sorted(SortAll(cs)) && multiset(SortAll(cs)) == multiset(cs)
  {
    if cs != [] {
      var n := |cs| - 1;
      assert cs == cs[..n] + [cs[n]];
      SortSorts(cs[..n]);
      InsertSorts(SortAll(cs[..n]), cs[n]);
    }
  }

  lemma {:induction false} OthersAreOthers(cs: seq<Command>, id: string)
    ensures forall x :: x in Others(cs, id) <==> x in cs && x.id != id
    ensures Unique(cs) ==> Unique(Others(cs, id))
  {
    if cs != [] {
      OthersAreOthers(cs[1..], id);
      assert forall x :: x in cs <==> x == cs[0] || x in cs[1..];
      if Unique(cs) {
        var r := Others(cs[1..], id);
        forall k | 0 <= k < |r| ensures r[k].id != cs[0].id {
          assert r[k] in r;
          assert r[k] in cs[1..];
        }
      }
    }
  }

  lemma UniqueInAnyOrder(a: seq<Command>, b: seq<Command>)
    requires Unique(a) && multiset(a) == multiset(b)
    ensures Unique(b)
  {
    forall i, j | 0 <= i < j < |b| ensures b[i].id != b[j].id {
      assert b[i] in multiset(a) && b[j] in multiset(a);
      var k :| 0 <= k < |a| && a[k] == b[i];
      var l :| 0 <= l < |a| && a[l] == b[j];
      if k == l {
        TwiceIsTwo(b, i, j);
        OnceIsOne(a, k);
      }
    }
  }

  lemma TwiceIsTwo(b: seq<Command>, i: nat, j: nat)
    requires i < j < |b| && b[i] == b[j]
    ensures multiset(b)[b[i]] >= 2
  {
    assert b == b[..j] + [b[j]] + b[j + 1..];
    assert b[i] in b[..j];
  }

  lemma OnceIsOne(a: seq<Command>, k: nat)
    requires k < |a| && Unique(a)
    ensures multiset(a)[a[k]] == 1
  {
    assert a == a[..k] + [a[k]] + a[k + 1..];
    assert a[k] !in a[..k] && a[k] !in a[k + 1..];
  }

  /**
   After an upsert the list is sorted by sequence with one row per command: the
   given one, and every other row that was there.
   */
  lemma UpsertedIsSortedAndUnique(cs: seq<Command>, c: Command)
    requires Unique(cs)
    ensures var r := Upserted(cs, c);
            Sorted(r) && Unique(r) && forall x :: x in r <==> x == c || (x in cs && x.id != c.id)
  {
    var all := Others(cs, c.id) + [c];
    OthersAreOthers(cs, c.id);
    forall k | 0 <= k < |all| - 1 ensures all[k].id != c.id { assert all[k] in Others(cs, c.id); }
    SortSorts(all);
    UniqueInAnyOrder(all, SortAll(all));
    forall x ensures x in SortAll(all) <==> x in all {
      assert x in multiset(SortAll(all)) <==> x in multiset(all);
    }
  }

  /** `a` may stand before `b`: a command without a number counts as the zeroth. */
  predicate NotAfter(a: Command, b: Command) {
    (if a.sequence.Some? then a.sequence.value else 0) <= (if b.sequence.Some? then b.sequence.value else 0)
  }

  lemma {:induction false} InsertsThere(cs: seq<Command>, c: Command) returns (p: nat)
    requires Sorted(cs)
    ensures p <= |cs| && Insert(cs, c) == cs[..p] + [c] + cs[p..]
    ensures forall k :: 0 <= k < |cs| ==> (k < p <==> NotAfter(cs[k], c))
  {
    p := 0;
    if cs != [] && Order(c) >= Order(cs[0]) {
      var q := InsertsThere(cs[1..], c);
      p := q + 1;
      assert cs == [cs[0]] + cs[1..];
      assert cs[..p] == [cs[0]] + cs[1..][..q] && cs[p..] == cs[1..][q..];
      assert forall k :: 1 <= k < |cs| ==> cs[k] == cs[1..][k - 1];
    }
  }

  lemma {:induction false} InsertsLast(cs: seq<Command>, c: Command)
    requires forall k :: 0 <= k < |cs| ==> Order(cs[k]) <= Order(c)
    ensures Insert(cs, c) == cs + [c]
  {
    if cs != [] {
      InsertsLast(cs[1..], c);
      assert [cs[0]] + (cs[1..] + [c]) == cs + [c];
    }
  }

  lemma {:induction false} SortedStays(cs: seq<Command>)
    requires Sorted(cs)
    ensures SortAll(cs) == cs
  {
    if cs != [] {
      var n := |cs| - 1;
      SortedStays(cs[..n]);
      InsertsLast(cs[..n], cs[n]);
      assert cs == cs[..n] + [cs[n]];
    }
  }

  lemma {:induction false} OthersStaySorted(cs: seq<Command>, id: string)
    requires Sorted(cs)
    ensures Sorted(Others(cs, id))
  {
    if cs != [] {
      OthersStaySorted(cs[1..], id);
      OthersAreOthers(cs[1..], id);
      var r := Others(cs[1..], id);
      forall k | 0 <= k < |r| ensures Order(cs[0]) <= Order(r[k]) {
        assert r[k] in r;
        assert r[k] in cs[1..];
      }
    }
  }

  /** An upsert leaves the other rows as they stand and puts the new one behind every row it need not precede. */
  lemma UpsertsThere(cs: seq<Command>, c: Command) returns (p: nat)
    requires Sorted(cs)
    ensures var rest := Others(cs, c.id);
            && p <= |rest| && Upserted(cs, c) == rest[..p] + [c] + rest[p..]
            && forall k :: 0 <= k < |rest| ==> (k < p <==> NotAfter(rest[k], c))
  {
    var rest := Others(cs, c.id);
    OthersStaySorted(cs, c.id);
    SortedStays(rest);
    assert (rest + [c])[..|rest|] == rest;
    p := InsertsThere(rest, c);
  }

  // ------------------------------------------------------------------ //
  // The dock as a state machine
  // ------------------------------------------------------------------ //

  /** A request still in flight, with the Session it was made for; `view` numbers the selection it was read for. */
  datatype Request =
    | ReadDetail(scope: string, view: nat)
    | ReadLines(scope: string, view: nat)
    | ReadCommands(scope: string, view: nat)
    | Send(scope: string, operation: string)
    | Stop(scope: string)
    | Reread(scope: string)

  datatype Answer = GotDetail(detail: Detail) | GotLines(lines: seq<Line>) | GotCommands(rows: seq<Command>)
    | Accepted(command: Command, announce: bool) | Refused

  datatype Event =
    | Select(session: Scope)
    | Submit(text: string, operation: string)
    | AskStop
    | Answered(request: Request, answer: Answer)
    | CommandFrame(command: Command)
    | TextFrame(line: Line)

  /** `submitted` and `toasts` are history: which Session each operation and notice was for. */
  datatype View = View(
    selected: Scope, view: nat, pending: map<string, seq<Msg>>, commands: seq<Command>, detail: Option<Detail>,
    transcript: seq<Line>, stopping: Scope, inflight: multiset<Request>,
    submitted: set<(string, string)>, toasts: seq<string>)

  const START := View(None, 0, map[], [], None, [], None, multiset{}, {}, [])

  /** The server answers for the Session it was asked about, with its rows in order and each once. */
  predicate Fits(r: Request, a: Answer) {
    a.Refused? ||
    match r
    case ReadDetail(s, _) => a.GotDetail? && a.detail.session == s
    case Reread(s) => a.GotDetail? && a.detail.session == s
    case ReadLines(s, _) => a.GotLines? && forall k :: 0 <= k < |a.lines| ==> a.lines[k].session == s
    case ReadCommands(s, _) => a.GotCommands? && AllOf(a.rows, s) && Sorted(a.rows) && Unique(a.rows)
    case Send(s, _) => a.Accepted? && a.command.session == s
    case Stop(s) => a.Accepted? && a.command.session == s
  }

  /** Answers come to requests in flight; frames come on the topics of the selected Session. */
  predicate Enabled(v: View, e: Event) {
    match e
    case Answered(r, a) => r in v.inflight && Fits(r, a)
    case TextFrame(line) => v.selected == Some(line.session)
    case CommandFrame(_) => v.selected.Some?
    case _ => true
  }

  function Cleared(v: View, session: Scope): View {
    v.(selected := session, view := v.view + 1, transcript := [], commands := [], detail := None,
       pending := ScopedClear(v.pending, session))
  }

  function Selected(v: View, session: Scope): View {
    if session.None? then Cleared(v, session)
    else Cleared(v, session).(inflight := v.inflight + Reads(session.value, v.view + 1))
  }

  /** What is read for a selection. */
  function Reads(scope: string, view: nat): multiset<Request> {
    multiset{ReadDetail(scope, view), ReadLines(scope, view), ReadCommands(scope, view)}
  }

  function Submitted(v: View, text: string, operation: string): View {
    if v.selected.None? then v
    else v.(pending := ScopedUpdate(v.pending, v.selected, [], (items: seq<Msg>) => UpsertById(items, Msg(operation, text, Sending))),
            inflight := v.inflight + multiset{Send(v.selected.value, operation)},
            submitted := v.submitted + {(v.selected.value, operation)})
  }

  function AskedStop(v: View): View {
    if v.selected.None? then v
    else v.(stopping := v.selected, inflight := v.inflight + multiset{Stop(v.selected.value)})
  }

  function WithCommand(v: View, c: Command, scope: Scope): View {
    if IsCurrent(v.selected, scope) then v.(commands := Upserted(v.commands, c)) else v
  }

  function WithToast(v: View, scope: string): View {
    if IsCurrent(v.selected, Some(scope)) then v.(toasts := v.toasts + [scope]) else v
  }

  /** Read for one selection: dropped once another has been made, even one of the same Session. */
  predicate Applies(v: View, scope: string, view: nat) {
    view == v.view && IsCurrent(v.selected, Some(scope))
  }

  /** What is done with the answer to a stop, whatever it is. */
  function Announced(v: View, s: string, a: Answer): View
    requires Fits(Stop(s), a)
  {
    if a.Refused? then WithToast(v, s)
    else WithToast(WithCommand(v, a.command, Some(s)), s).(inflight := v.inflight + multiset{Reread(s)})
  }

  function Resolved(v: View, r: Request, a: Answer): View
    requires Fits(r, a)
  {
    match r
    case ReadDetail(s, n) => if a.GotDetail? && Applies(v, s, n) then v.(detail := Some(a.detail)) else v
    case ReadLines(s, n) => if a.GotLines? && Applies(v, s, n) then v.(transcript := a.lines) else v
    case ReadCommands(s, n) => if a.GotCommands? && Applies(v, s, n) then v.(commands := a.rows) else v
    case Reread(s) => if a.GotDetail? && IsCurrent(v.selected, Some(s)) then v.(detail := Some(a.detail)) else v
    case Send(s, operation) =>
      if a.Refused? then
        WithToast(v.(pending := ScopedUpdate(v.pending, Some(s), [], (items: seq<Msg>) => Fail(items, operation))), s)
      else
        var w := WithCommand(
          v.(pending := ScopedUpdate(v.pending, Some(s), [], (items: seq<Msg>) => RemoveById(items, operation))), a.command, Some(s));
        if a.announce then WithToast(w, s) else w
    case Stop(s) =>
      Announced(v, s, a).(stopping := if v.stopping == Some(s) then None else v.stopping)
  }

  function Apply(v: View, e: Event): View
    requires Enabled(v, e)
  {
    match e
    case Select(s) => Selected(v, s)
    case Submit(text, operation) => Submitted(v, text, operation)
    case AskStop => AskedStop(v)
    case Answered(r, a) => Resolved(v.(inflight := v.inflight - multiset{r}), r, a)
    case CommandFrame(c) => if v.selected != Some(c.session) then v else WithCommand(v, c, v.selected)
    case TextFrame(line) => if line.text == "" then v else v.(transcript := v.transcript + [line])
  }

  // ------------------------------------------------------------------ //
  // Isolation
  // ------------------------------------------------------------------ //

  predicate PendingIsOwn(v: View) {
    forall s :: s in v.pending ==>
      UniqueIds(v.pending[s]) && forall k :: 0 <= k < |v.pending[s]| ==> (s, v.pending[s][k].id) in v.submitted
  }

  predicate SendsAreOwn(v: View) {
    forall r :: r in v.inflight && r.Send? ==> (r.scope, r.operation) in v.submitted
  }

  predicate ShownIsSelected(v: View) {
    && (v.selected.None? ==> v.commands == [] && v.detail == None && v.transcript == [])
    && (v.selected.Some? ==>
          && AllOf(v.commands, v.selected.value)
          && (v.detail.Some? ==> v.detail.value.session == v.selected.value)
          && forall k :: 0 <= k < |v.transcript| ==> v.transcript[k].session == v.selected.value)
  }

  /** What every step keeps. */
  predicate Isolated(v: View) {
    PendingIsOwn(v) && SendsAreOwn(v) && ShownIsSelected(v) && Sorted(v.commands) && Unique(v.commands)
  }

  lemma WithCommandKeeps(v: View, c: Command, scope: Scope)
    requires Isolated(v) && (scope.Some? ==> c.session == scope.value)
    ensures Isolated(WithCommand(v, c, scope))
  {
    if IsCurrent(v.selected, scope) {
      UpsertedIsSortedAndUnique(v.commands, c);
      var r := Upserted(v.commands, c);
      forall k | 0 <= k < |r| ensures r[k].session == v.selected.value { assert r[k] in r; }
    }
  }

  lemma SubmitKeeps(v: View, text: string, operation: string)
    requires Isolated(v)
    ensures Isolated(Submitted(v, text, operation))
  {
    if v.selected.Some? {
      var s := v.selected.value;
      var before := ScopedGet(v.pending, v.selected, []);
      var item := Msg(operation, text, Sending);
      UpsertPlaces(before, item);
      var w := Submitted(v, text, operation);
      assert w.pending[s] == UpsertById(before, item);
      forall k | 0 <= k < |w.pending[s]| ensures (s, w.pending[s][k].id) in w.submitted {
        if k < |before| && before[k].id != operation { assert (s, before[k].id) in v.submitted; }
      }
    }
  }

  lemma RemovedKeeps(v: View, s: string, operation: string)
    requires Isolated(v)
    ensures Isolated(v.(pending := ScopedUpdate(v.pending, Some(s), [], (items: seq<Msg>) => RemoveById(items, operation))))
  {
    var before := ScopedGet(v.pending, Some(s), []);
    RemoveRemoves(before, operation);
    var after := RemoveById(before, operation);
    forall k | 0 <= k < |after| ensures (s, after[k].id) in v.submitted {
      assert after[k] in after;
      var j :| 0 <= j < |before| && before[j] == after[k];
    }
  }

  lemma FailedKeeps(v: View, s: string, operation: string)
    requires Isolated(v)
    ensures Isolated(v.(pending := ScopedUpdate(v.pending, Some(s), [], (items: seq<Msg>) => Fail(items, operation))))
  {
    var before := ScopedGet(v.pending, Some(s), []);
    FailKeepsIds(before, operation);
  }

  lemma ResolvedKeeps(v: View, r: Request, a: Answer)
    requires Isolated(v) && Fits(r, a)
    ensures Isolated(Resolved(v, r, a))
  {
    match r
    case Send(s, operation) => SentKeeps(v, s, operation, a);
    case Stop(s) => StoppedKeeps(v, s, a);
    case _ => ReadKeeps(v, r, a);
  }

  lemma StoppedKeeps(v: View, s: string, a: Answer)
    requires Isolated(v) && Fits(Request.Stop(s), a)
    ensures Isolated(Resolved(v, Request.Stop(s), a))
  {
    if a.Accepted? { WithCommandKeeps(v, a.command, Some(s)); }
  }

  lemma ReadKeeps(v: View, r: Request, a: Answer)
    requires Isolated(v) && Fits(r, a) && !r.Send? && !r.Stop?
    ensures Isolated(Resolved(v, r, a))
  {
  }

  lemma SentKeeps(v: View, s: string, operation: string, a: Answer)
    requires Isolated(v) && Fits(Send(s, operation), a)
    ensures Isolated(Resolved(v, Send(s, operation), a))
  {
    if a.Refused? {
      FailedKeeps(v, s, operation);
    } else {
      RemovedKeeps(v, s, operation);
      WithCommandKeeps(
        v.(pending := ScopedUpdate(v.pending, Some(s), [], (items: seq<Msg>) => RemoveById(items, operation))), a.command, Some(s));
    }
  }

  /** Every step - selection, send, stop, answer in any order, frame - keeps the Sessions apart. */
  lemma StepKeepsIsolation(v: View, e: Event)
    requires Isolated(v) && Enabled(v, e)
    ensures Isolated(Apply(v, e))
  {
    match e
    case Select(s) => SelectKeeps(v, s);
    case Submit(text, operation) => SubmitKeeps(v, text, operation);
    case Answered(r, a) => ResolvedKeeps(v.(inflight := v.inflight - multiset{r}), r, a);
    case CommandFrame(c) => if v.selected == Some(c.session) { WithCommandKeeps(v, c, v.selected); }
    case _ =>
  }

  ghost predicate IsRun(run: seq<View>, events: seq<Event>) {
    && |run| == |events| + 1 && run[0] == START
    && forall k :: 0 <= k < |events| ==> Enabled(run[k], events[k]) && run[k + 1] == Apply(run[k], events[k])
  }

  lemma {:induction false} RunsStayIsolated(run: seq<View>, events: seq<Event>)
    requires IsRun(run, events)
    ensures forall k :: 0 <= k < |run| ==> Isolated(run[k])
    decreases |events|
  {
    if events != [] {
      var n := |events| - 1;
      RunsStayIsolated(run[..n + 1], events[..n]);
      assert run[n] == run[..n + 1][n];
      StepKeepsIsolation(run[n], events[n]);
      forall k | 0 <= k < |run| ensures Isolated(run[k]) {
        if k <= n { assert run[k] == run[..n + 1][k]; }
      }
    }
  }

  /**
   An answer touches only the Session it is for: every other Session's pending
   list stays, and unless that Session is selected nothing visible changes.
   */
  lemma AnswerTouchesItsOwnSession(v: View, r: Request, a: Answer)
    requires r in v.inflight && Fits(r, a)
    ensures var w := Apply(v, Answered(r, a));
            && (forall t :: t != r.scope ==> ScopedGet(w.pending, Some(t), []) == ScopedGet(v.pending, Some(t), []))
            && (v.selected != Some(r.scope) ==>
                  w.commands == v.commands && w.detail == v.detail && w.transcript == v.transcript && w.toasts == v.toasts)
            && w.selected == v.selected
            && (w.toasts == v.toasts || (v.selected == Some(r.scope) && w.toasts == v.toasts + [r.scope]))
  {
  }

  // ------------------------------------------------------------------ //
  // Which answers show
  // ------------------------------------------------------------------ //

  function Selections(events: seq<Event>): nat {
    if events == [] then 0 else Selections(events[..|events| - 1]) + if events[|events| - 1].Select? then 1 else 0
  }

  /** A read still in flight was made for the selection its number says; the last one is the one that holds. */
  predicate ReadsAreOwn(v: View) {
    forall r :: r in v.inflight && (r.ReadDetail? || r.ReadLines? || r.ReadCommands?) ==>
      r.view <= v.view && (r.view == v.view ==> v.selected == Some(r.scope))
  }

  lemma ResolvedInFlight(v: View, r: Request, a: Answer)
    requires Fits(r, a)
    ensures var w := Resolved(v, r, a);
            && w.selected == v.selected && w.view == v.view
            && w.inflight == v.inflight + if r.Stop? && a.Accepted? then multiset{Reread(r.scope)} else multiset{}
  {
  }

  lemma AnswerKeepsReads(v: View, r: Request, a: Answer)
    requires ReadsAreOwn(v) && Enabled(v, Answered(r, a))
    ensures ReadsAreOwn(Apply(v, Answered(r, a))) && Apply(v, Answered(r, a)).view == v.view
  {
    ResolvedInFlight(v.(inflight := v.inflight - multiset{r}), r, a);
  }

  lemma SelectKeepsReads(v: View, session: Scope)
    requires ReadsAreOwn(v)
    ensures ReadsAreOwn(Selected(v, session)) && Selected(v, session).view == v.view + 1
  {
  }

  lemma StepKeepsReads(v: View, e: Event)
    requires ReadsAreOwn(v) && Enabled(v, e)
    ensures ReadsAreOwn(Apply(v, e)) && Apply(v, e).view == v.view + if e.Select? then 1 else 0
  {
    match e
    case Select(s) => SelectKeepsReads(v, s);
    case Answered(r, a) => AnswerKeepsReads(v, r, a);
    case _ =>
  }

  lemma {:induction false} RunsKeepReads(run: seq<View>, events: seq<Event>, k: nat)
    requires IsRun(run, events) && k < |run|
    ensures ReadsAreOwn(run[k]) && run[k].view == Selections(events[..k])
  {
    if k > 0 {
      RunsKeepReads(run, events, k - 1);
      StepKeepsReads(run[k - 1], events[k - 1]);
      assert events[..k][..k - 1] == events[..k - 1] && run[k] == Apply(run[k - 1], events[k - 1]);
    }
  }

  /** The thread: the command rows, the detail and the lines shown. */
  datatype Thread = Thread(commands: seq<Command>, detail: Option<Detail>, transcript: seq<Line>)

  function ThreadOf(v: View): Thread {
    Thread(v.commands, v.detail, v.transcript)
  }

  /** The thread with what an answer brought. */
  function Showing(t: Thread, a: Answer): Thread {
    match a
    case GotDetail(detail) => t.(detail := Some(detail))
    case GotLines(lines) => t.(transcript := lines)
    case GotCommands(rows) => t.(commands := rows)
    case _ => t
  }

  /**
   In every run, what was read for a selection is shown if and only if no selection
   was made since, not even of the same Session; and nothing else changes with it.
   */
  lemma ReadShowsIff(run: seq<View>, events: seq<Event>, k: nat, r: Request, a: Answer)
    requires IsRun(run, events) && k < |events| && events[k] == Answered(r, a)
    requires r.ReadDetail? || r.ReadLines? || r.ReadCommands?
    ensures ThreadOf(run[k + 1]) ==
            if r.view == Selections(events[..k]) then Showing(ThreadOf(run[k]), a) else ThreadOf(run[k])
    ensures run[k + 1].pending == run[k].pending && run[k + 1].toasts == run[k].toasts && run[k + 1].stopping == run[k].stopping
  {
    RunsKeepReads(run, events, k);
    assert Enabled(run[k], events[k]) && run[k + 1] == Apply(run[k], events[k]);
  }

  /** A selection asks for the three parts of its thread under its own number, and shows nothing until they come. */
  lemma SelectAsks(run: seq<View>, events: seq<Event>, k: nat, s: string)
    requires IsRun(run, events) && k < |events| && events[k] == Select(Some(s))
    ensures var n := Selections(events[..k]) + 1;
            run[k + 1].inflight == run[k].inflight + multiset{ReadDetail(s, n), ReadLines(s, n), ReadCommands(s, n)}
    ensures ThreadOf(run[k + 1]) == Thread([], None, []) && ScopedGet(run[k + 1].pending, Some(s), []) == []
  {
    RunsKeepReads(run, events, k);
    assert Enabled(run[k], events[k]) && run[k + 1] == Apply(run[k], events[k]);
  }

  /**
   The answer to a send settles its item: accepted, the item is gone from its
   Session's list and the command stands in the thread if that Session is selected;
   refused, it is marked as failed, and the operator is told where the Session is selected.
   */
  lemma SendSettles(v: View, s: string, operation: string, a: Answer)
    requires Isolated(v) && Send(s, operation) in v.inflight && Fits(Send(s, operation), a)
    ensures var w, before := Apply(v, Answered(Send(s, operation), a)), ScopedGet(v.pending, Some(s), []);
            var after := ScopedGet(w.pending, Some(s), []);
            if a.Accepted? then
              && !HasId(after, operation) && (forall x :: x in after <==> x in before && x.id != operation)
              && (v.selected == Some(s) ==> forall x :: x in w.commands <==> x == a.command || (x in v.commands && x.id != a.command.id))
              && w.toasts == v.toasts + (if a.announce && v.selected == Some(s) then [s] else [])
            else
              && |after| == |before|
              && (forall k :: 0 <= k < |before| ==> after[k] == if before[k].id == operation then before[k].(status := Failed) else before[k])
              && w.commands == v.commands && w.toasts == v.toasts + (if v.selected == Some(s) then [s] else [])
  {
    var before := ScopedGet(v.pending, Some(s), []);
    RemoveRemoves(before, operation);
    FailKeepsIds(before, operation);
    if a.Accepted? { UpsertedIsSortedAndUnique(v.commands, a.command); }
  }

  lemma SelectKeeps(v: View, session: Scope)
    requires Isolated(v)
    ensures Isolated(Selected(v, session))
  {
  }

  // ------------------------------------------------------------------ //
  // The component
  // ------------------------------------------------------------------ //

  class Dock {
    var selected: Scope
    var view: nat
    var pending: map<string, seq<Msg>>
    var commands: seq<Command>
    var detail: Option<Detail>
    var transcript: seq<Line>
    var stopping: Scope
    ghost var inflight: multiset<Request>
    ghost var submitted: set<(string, string)>
    var toasts: seq<string>

    constructor ()
      ensures Now() == START
    {
      selected, view, pending, commands, detail, transcript, stopping := None, 0, map[], [], None, [], None;
      inflight, submitted, toasts := multiset{}, {}, [];
    }

    ghost function Now(): View
      reads this
    {
      View(selected, view, pending, commands, detail, transcript, stopping, inflight, submitted, toasts)
    }

    method Clear(session: Scope)
      modifies this
      ensures Now() == Cleared(old(Now()), session)
    {
      transcript, commands, detail := [], [], None;
      selected, view := session, view + 1;
      pending := ScopedClear(pending, session);
    }

    /** The effect that runs when the selection changes: the thread is emptied and read again. */
    method Select(session: Scope)
      modifies this
      ensures Now() == Selected(old(Now()), session)
    {
      Clear(session);
      if session.Some? {
        inflight := inflight + Reads(session.value, view);
      }
    }

    method UpsertCommand(command: Command, scope: Scope)
      modifies this`commands
      ensures Now() == WithCommand(old(Now()), command, scope)
    {
      if !IsCurrent(selected, scope) { return; }
      var next := Others(commands, command.id);
      commands := SortAll(next + [command]);
    }

    method Toast(scope: string)
      modifies this`toasts
      ensures Now() == WithToast(old(Now()), scope)
    {
      if IsCurrent(selected, Some(scope)) { toasts := toasts + [scope]; }
    }

    /** The first half of sending: the pending item is shown and the request goes out. */
    method Submit(text: string, operation: string)
      modifies this
      ensures Now() == Submitted(old(Now()), text, operation)
    {
      if selected.None? { return; }
      pending := ScopedUpdate(pending, selected, [], (items: seq<Msg>) => UpsertById(items, Msg(operation, text, Sending)));
      inflight := inflight + multiset{Send(selected.value, operation)};
      submitted := submitted + {(selected.value, operation)};
    }

    method AskStop()
      modifies this
      ensures Now() == AskedStop(old(Now()))
    {
      if selected.None? { return; }
      stopping := selected;
      inflight := inflight + multiset{Request.Stop(selected.value)};
    }

    /** The second half of sending, once the answer is there. */
    method Sent(scope: string, operation: string, a: Answer)
      requires Send(scope, operation) in inflight && Fits(Send(scope, operation), a)
      modifies this
      ensures Now() == Resolved(old(Now()).(inflight := old(inflight) - multiset{Send(scope, operation)}), Send(scope, operation), a)
    {
      inflight := inflight - multiset{Send(scope, operation)};
      if a.Refused? {
        pending := ScopedUpdate(pending, Some(scope), [], (items: seq<Msg>) => Fail(items, operation));
        Toast(scope);
      } else {
        pending := ScopedUpdate(pending, Some(scope), [], (items: seq<Msg>) => RemoveById(items, operation));
        UpsertCommand(a.command, Some(scope));
        if a.announce { Toast(scope); }
      }
    }

    method Ask(r: Request)
      modifies this`inflight
      ensures Now() == old(Now()).(inflight := old(inflight) + multiset{r})
    {
      inflight := inflight + multiset{r};
    }

    method Announce(scope: string, a: Answer)
      requires Fits(Request.Stop(scope), a)
      modifies this`commands, this`toasts, this`inflight
      ensures Now() == Announced(old(Now()), scope, a)
    {
      if a.Accepted? {
        UpsertCommand(a.command, Some(scope));
        Toast(scope);
        Ask(Reread(scope));
      } else {
        Toast(scope);
      }
    }

    method Unstop(scope: string)
      modifies this`stopping
      ensures Now() == old(Now()).(stopping := if old(stopping) == Some(scope) then None else old(stopping))
    {
      stopping := if stopping == Some(scope) then None else stopping;
    }

    method Drop(r: Request)
      modifies this`inflight
      ensures Now() == old(Now()).(inflight := old(inflight) - multiset{r})
    {
      inflight := inflight - multiset{r};
    }

    /** The second half of stopping. */
    method Stopped(scope: string, a: Answer)
      requires Request.Stop(scope) in inflight && Fits(Request.Stop(scope), a)
      modifies this
      ensures Now() == Resolved(old(Now()).(inflight := old(inflight) - multiset{Request.Stop(scope)}), Request.Stop(scope), a)
    {
      Drop(Request.Stop(scope));
      Announce(scope, a);
      Unstop(scope);
    }

    /** A command frame: applied by id, so a second delivery updates the same row. */
    method OnCommand(command: Command)
      requires selected.Some?
      modifies this
      ensures Now() == Apply(old(Now()), CommandFrame(command))
      ensures commands == if selected == Some(command.session) then Upserted(old(commands), command) else old(commands)
    {
      if selected != Some(command.session) { return; }
      UpsertCommand(command, selected);
    }

    method OnText(line: Line)
      requires selected == Some(line.session)
      modifies this
      ensures Now() == Apply(old(Now()), TextFrame(line))
      ensures transcript == if line.text == "" then old(transcript) else old(transcript) + [line]
    {
      if line.text == "" { return; }
      transcript := transcript + [line];
    }
  }
}
