/**
 The URG summary hierarchy: the streaming parser that turns `session.xml` events into instance rows
 with an explicit stack, and the worklist that expands one instance to its XML subtree.
 */
module UrgSummary {
  import opened Wrappers
  import opened KeySort

  datatype Kind = Instance | Functional | Assertion | Unsupported
  datatype Ratio = Ratio(covered: int, coverable: int)

  type Metrics = map<string, Ratio>

  /** The elements of `session.xml` that matter here, and the events an XML reader makes of them. */
  datatype Elem = Scope(kind: Kind, name: string, body: seq<Elem>) | Metric(metric: string, value: Ratio)

  datatype Event = Start(kind: Kind, name: string) | MetricEnd(metric: string, value: Ratio) | End

  datatype Row = Row(parent: Option<string>, metrics: Metrics)
  datatype Named = Named(fullName: string, row: Row)

  /** One open scope. */
  datatype Context = Context(kind: Kind, fullName: Option<string>, parent: Option<string>, metrics: Metrics)

  datatype Error = BadScope | DuplicateInstance | StackUnderflow | UnclosedScope | NoInstances

  datatype State = State(stack: seq<Context>, rows: map<string, Row>)

  function Qualify(parent: Option<string>, name: string): string {
    match parent case None => name case Some(p) => p + "." + name
  }

  // ---------- public metrics ----------

  const PUBLIC := {"line", "condition", "toggle", "fsm", "branch", "assert"}

  /** The name URG gives to a public metric. */
  function UrgName(metric: string): string {
    match metric
    case "line" => "Line"
    case "condition" => "Cond"
    case "toggle" => "Toggle"
    case "fsm" => "FSM"
    case "branch" => "Branch"
    case _ => "Assert"
  }

  /** `_public_metrics`: six metrics under their public names, every other one dropped. */
  function PublicMetrics(metrics: Metrics): Metrics {
    map m | m in PUBLIC && UrgName(m) in metrics :: metrics[UrgName(m)]
  }

  /** The public metrics are those of six URG names, each under its own public name. */
  lemma PublicMetricsAre(metrics: Metrics, name: string, value: Ratio)
    ensures name in PublicMetrics(metrics) && PublicMetrics(metrics)[name] == value <==>
              exists pair :: pair in
                {("Line", "line"), ("Cond", "condition"), ("Toggle", "toggle"), ("FSM", "fsm"), ("Branch", "branch"), ("Assert", "assert")}
                && pair.1 == name && pair.0 in metrics && metrics[pair.0] == value
  {
    if name in PUBLIC {
      assert (UrgName(name), name) in
               {("Line", "line"), ("Cond", "condition"), ("Toggle", "toggle"), ("FSM", "fsm"), ("Branch", "branch"), ("Assert", "assert")};
    }
  }

  // ---------- what the document means ----------

  /** The metric elements directly inside a scope; the last one of a name wins. */
  function DirectMetrics(body: seq<Elem>): Metrics {
    if body == [] then map[]
    else
      var before := DirectMetrics(body[..|body| - 1]);
      match body[|body| - 1]
      case Metric(m, v) => before[m := v]
      case Scope(_, _, _) => before
  }

  /** Element `i` is the last metric of its name in the body. */
  predicate LastOfName(body: seq<Elem>, i: nat, m: string, v: Ratio) {
    i < |body| && body[i] == Metric(m, v) && forall j :: i < j < |body| && body[j].Metric? ==> body[j].metric != m
  }

  /** A scope has a metric exactly if an element directly in it says so and no later one says otherwise. */
  lemma {:induction false} DirectMetricsAre(body: seq<Elem>, m: string, v: Ratio)
    ensures m in DirectMetrics(body) && DirectMetrics(body)[m] == v <==> exists i :: LastOfName(body, i, m, v)
    decreases |body|
  {
    if body != [] {
      var n := |body| - 1;
      DirectMetricsAre(body[..n], m, v);
      if body[n].Metric? && body[n].metric == m {
        assert body[n].value == v ==> LastOfName(body, n, m, v);
      } else {
        forall i: nat ensures LastOfName(body, i, m, v) <==> LastOfName(body[..n], i, m, v) { }
      }
    }
  }

  /** The instance rows of one element under the enclosing instance `parent`, in closing order. */
  function ElemRows(e: Elem, parent: Option<string>): seq<Named>
    decreases e, 0
  {
    match e
    case Metric(_, _) => []
    case Scope(Instance, name, body) =>
      var full := Qualify(parent, name);
      BodyRows(body, Some(full)) + [Named(full, Row(parent, PublicMetrics(DirectMetrics(body))))]
    case Scope(_, _, body) => BodyRows(body, parent)
  }

  function BodyRows(body: seq<Elem>, parent: Option<string>): seq<Named>
    decreases body, 1
  {
    if body == [] then []
    else BodyRows(body[..|body| - 1], parent) + ElemRows(body[|body| - 1], parent)
  }

  /** Every scope has a name and a supported type. */
  predicate ElemGood(e: Elem)
    decreases e, 0
  {
    e.Scope? ==> e.name != "" && !e.kind.Unsupported? && BodyGood(e.body)
  }

  predicate BodyGood(body: seq<Elem>)
    decreases body, 1
  {
    body == [] || (BodyGood(body[..|body| - 1]) && ElemGood(body[|body| - 1]))
  }

  function ElemEvents(e: Elem): seq<Event>
    decreases e, 0
  {
    match e
    case Metric(m, v) => [MetricEnd(m, v)]
    case Scope(k, n, body) => [Start(k, n)] + BodyEvents(body) + [End]
  }

  /** The well-nested event stream of a document. */
  function BodyEvents(body: seq<Elem>): seq<Event>
    decreases body, 1
  {
    if body == [] then [] else BodyEvents(body[..|body| - 1]) + ElemEvents(body[|body| - 1])
  }

  predicate Fresh(rows: map<string, Row>, named: seq<Named>) {
    && (forall i :: 0 <= i < |named| ==> named[i].fullName !in rows)
    && (forall i, j :: 0 <= i < j < |named| ==> named[i].fullName != named[j].fullName)
  }

  function Table(rows: map<string, Row>, named: seq<Named>): map<string, Row> {
    if named == [] then rows
    else Table(rows, named[..|named| - 1])[named[|named| - 1].fullName := named[|named| - 1].row]
  }

  // ---------- the parser ----------

  /** The innermost open instance. */
  function Enclosing(stack: seq<Context>): Option<string> {
    if stack == [] then None
    else if stack[|stack| - 1].kind.Instance? then stack[|stack| - 1].fullName
    else Enclosing(stack[..|stack| - 1])
  }

  function OpenScope(stack: seq<Context>, kind: Kind, name: string): Context {
    var parent := Enclosing(stack);
    Context(kind, if kind.Instance? then Some(Qualify(parent, name)) else None, parent, map[])
  }

  /** The effect of one event. */
  function Step(s: State, e: Event): Result<State, Error> {
    match e
    case Start(kind, name) =>
      if name == "" || kind.Unsupported? then Err(BadScope)
      else Ok(s.(stack := s.stack + [OpenScope(s.stack, kind, name)]))
    case MetricEnd(m, v) =>
      if s.stack == [] then Ok(s)
      else
        var n := |s.stack| - 1;
        Ok(s.(stack := s.stack[..n] + [s.stack[n].(metrics := s.stack[n].metrics[m := v])]))
    case End =>
      if s.stack == [] then Err(StackUnderflow)
      else
        var n := |s.stack| - 1;
        var ctx := s.stack[n];
        if !ctx.kind.Instance? || ctx.fullName.None? then Ok(s.(stack := s.stack[..n]))
        else if ctx.fullName.value in s.rows then Err(DuplicateInstance)
        else Ok(State(s.stack[..n], s.rows[ctx.fullName.value := Row(ctx.parent, PublicMetrics(ctx.metrics))]))
  }

  function Steps(s: State, events: seq<Event>): Result<State, Error>
    decreases |events|
  {
    if events == [] then Ok(s)
    else
      var t :- Step(s, events[0]);
      Steps(t, events[1..])
  }

  /** More events after a result; an error stays. */
  function Then(r: Result<State, Error>, events: seq<Event>): Result<State, Error> {
    if r.Ok? then Steps(r.value, events) else r
  }

  lemma {:induction false} StepsAppend(s: State, a: seq<Event>, b: seq<Event>)
    ensures Steps(s, a + b) == Then(Steps(s, a), b)
    decreases |a|
  {
    if a == [] {
      assert a + b == b;
    } else {
      assert (a + b)[0] == a[0] && (a + b)[1..] == a[1..] + b;
      var t := Step(s, a[0]);
      if t.Ok? { StepsAppend(t.value, a[1..], b); }
    }
  }

  /** `_parse_xml` over its event stream. */
  method ParseXml(events: seq<Event>) returns (r: Result<map<string, Row>, Error>)
    ensures match Steps(State([], map[]), events)
            case Err(e) => r == Err(e)
            case Ok(s) => r == if s.stack != [] then Err(UnclosedScope)
                               else if s.rows == map[] then Err(NoInstances) else Ok(s.rows)
  {
    var s := State([], map[]);
    var i := 0;
    while i < |events|
      invariant i <= |events|
      invariant Steps(State([], map[]), events) == Steps(s, events[i..])
    {
      var next := Step(s, events[i]);
      if next.Err? { return Err(next.error); }
      assert events[i..][1..] == events[i + 1..];
      s := next.value;
      i := i + 1;
    }
    if s.stack != [] { return Err(UnclosedScope); }
    if s.rows == map[] { return Err(NoInstances); }
    r := Ok(s.rows);
  }

  // ---------- the parser computes what the document means ----------

  /** The stack after the direct metrics of `body` were seen in its innermost scope. */
  function WithMetrics(stack: seq<Context>, metrics: Metrics): seq<Context> {
    if stack == [] then []
    else
      var n := |stack| - 1;
      stack[..n] + [stack[n].(metrics := stack[n].metrics + metrics)]
  }

  /** What running the events of a well-nested piece does to a state. */
  ghost predicate Behaves(s: State, events: seq<Event>, good: bool, metrics: Metrics, named: seq<Named>) {
    if good && Fresh(s.rows, named)
    then Steps(s, events) == Ok(State(WithMetrics(s.stack, metrics), Table(s.rows, named)))
    else Steps(s, events).Err?
  }

  lemma EnclosingKeepsMetrics(stack: seq<Context>, metrics: Metrics)
    ensures Enclosing(WithMetrics(stack, metrics)) == Enclosing(stack)
  {
  }

  lemma {:induction false} TableKeys(rows: map<string, Row>, named: seq<Named>)
    ensures Table(rows, named).Keys == rows.Keys + set i | 0 <= i < |named| :: named[i].fullName
  {
    if named != [] {
      TableKeys(rows, named[..|named| - 1]);
    }
  }

  lemma {:induction false} TableAppend(rows: map<string, Row>, a: seq<Named>, b: seq<Named>)
    ensures Table(rows, a + b) == Table(Table(rows, a), b)
  {
    if b == [] {
      assert a + b == a;
    } else {
      var n := |b| - 1;
      assert (a + b)[..|a + b| - 1] == a + b[..n];
      TableAppend(rows, a, b[..n]);
    }
  }

  lemma FreshParts(rows: map<string, Row>, a: seq<Named>, b: seq<Named>)
    requires Fresh(rows, a + b)
    ensures Fresh(rows, a) && Fresh(Table(rows, a), b)
  {
    var all := a + b;
    TableKeys(rows, a);
    forall i | 0 <= i < |a| ensures a[i].fullName !in rows { assert all[i] == a[i]; }
    forall i, j | 0 <= i < j < |a| ensures a[i].fullName != a[j].fullName { assert all[i] == a[i] && all[j] == a[j]; }
    forall i | 0 <= i < |b| ensures b[i].fullName !in Table(rows, a) {
      assert all[|a| + i] == b[i];
      forall j | 0 <= j < |a| ensures a[j].fullName != b[i].fullName { assert all[j] == a[j]; }
    }
    forall i, j | 0 <= i < j < |b| ensures b[i].fullName != b[j].fullName {
      assert all[|a| + i] == b[i] && all[|a| + j] == b[j];
    }
  }

  lemma FreshJoin(rows: map<string, Row>, a: seq<Named>, b: seq<Named>)
    requires Fresh(rows, a) && Fresh(Table(rows, a), b)
    ensures Fresh(rows, a + b)
  {
    TableKeys(rows, a);
  }

  /** Names are fresh one by one or in two parts. */
  lemma FreshAppend(rows: map<string, Row>, a: seq<Named>, b: seq<Named>)
    ensures Fresh(rows, a + b) <==> Fresh(rows, a) && Fresh(Table(rows, a), b)
  {
    if Fresh(rows, a + b) { FreshParts(rows, a, b); }
    if Fresh(rows, a) && Fresh(Table(rows, a), b) { FreshJoin(rows, a, b); }
  }

  lemma WithMetricsTwice(stack: seq<Context>, a: Metrics, b: Metrics)
    ensures WithMetrics(WithMetrics(stack, a), b) == WithMetrics(stack, a + b)
    ensures WithMetrics(stack, map[]) == stack
  {
    if stack != [] {
      var n := |stack| - 1;
      assert stack == stack[..n] + [stack[n]];
      assert WithMetrics(stack, a)[..n] == stack[..n];
      assert stack[n].metrics + a + b == stack[n].metrics + (a + b);
      assert stack[n].metrics + map[] == stack[n].metrics;
    }
  }

  lemma MetricBehaves(s: State, m: string, v: Ratio)
    ensures Behaves(s, [MetricEnd(m, v)], true, map[m := v], [])
  {
    assert [MetricEnd(m, v)][1..] == [];
    if s.stack != [] {
      assert s.stack[|s.stack| - 1].metrics + map[m := v] == s.stack[|s.stack| - 1].metrics[m := v];
    }
  }

  lemma StepFirst(s: State, e: Event, rest: seq<Event>)
    ensures Steps(s, [e] + rest) == Then(Step(s, e), rest)
  {
    assert ([e] + rest)[1..] == rest;
  }

  lemma TableOne(rows: map<string, Row>, own: Named)
    ensures Table(rows, [own]) == rows[own.fullName := own.row]
    ensures Fresh(rows, [own]) <==> own.fullName !in rows
  {
    assert [own][..0] == [];
    assert Fresh(rows, [own]) ==> [own][0].fullName !in rows;
  }

  lemma PopClosed(stack: seq<Context>, top: Context, metrics: Metrics)
    requires top.metrics == map[]
    ensures var closed := WithMetrics(stack + [top], metrics);
            closed != [] && closed[..|closed| - 1] == stack && closed[|closed| - 1] == top.(metrics := metrics)
  {
    assert map[] + metrics == metrics;
    assert (stack + [top])[..|stack|] == stack;
  }

  /** Well-behaved so far: `r` is what the events of a scope's body made of `stack + [top]`. */
  ghost predicate BodyDone(rows: map<string, Row>, stack: seq<Context>, top: Context, r: Result<State, Error>,
                           good: bool, metrics: Metrics, inner: seq<Named>) {
    top.metrics == map[]
    && if good && Fresh(rows, inner) then r == Ok(State(WithMetrics(stack + [top], metrics), Table(rows, inner))) else r.Err?
  }

  /** The closing event of an instance pops it and adds its row, unless the full name is taken. */
  lemma EndInstance(rows: map<string, Row>, stack: seq<Context>, top: Context, r: Result<State, Error>,
                    good: bool, metrics: Metrics, inner: seq<Named>, own: Named)
    requires BodyDone(rows, stack, top, r, good, metrics, inner)
    requires top.kind.Instance? && top.fullName == Some(own.fullName) && own.row == Row(top.parent, PublicMetrics(metrics))
    ensures if good && Fresh(rows, inner + [own])
            then Then(r, [End]) == Ok(State(stack, Table(rows, inner + [own]))) else Then(r, [End]).Err?
  {
    TableAppend(rows, inner, [own]);
    FreshAppend(rows, inner, [own]);
    TableOne(Table(rows, inner), own);
    PopClosed(stack, top, metrics);
    if r.Ok? { StepFirst(r.value, End, []); assert [End] + [] == [End]; }
  }

  /** The closing event of any other scope just pops it. */
  lemma EndOther(rows: map<string, Row>, stack: seq<Context>, top: Context, r: Result<State, Error>,
                 good: bool, metrics: Metrics, inner: seq<Named>)
    requires BodyDone(rows, stack, top, r, good, metrics, inner) && !top.kind.Instance?
    ensures if good && Fresh(rows, inner)
            then Then(r, [End]) == Ok(State(stack, Table(rows, inner))) else Then(r, [End]).Err?
  {
    PopClosed(stack, top, metrics);
    if r.Ok? { StepFirst(r.value, End, []); assert [End] + [] == [End]; }
  }

  lemma EnclosingPushed(stack: seq<Context>, kind: Kind, name: string)
    ensures Enclosing(stack + [OpenScope(stack, kind, name)])
         == if kind.Instance? then Some(Qualify(Enclosing(stack), name)) else Enclosing(stack)
  {
    assert (stack + [OpenScope(stack, kind, name)])[..|stack|] == stack;
  }

  /** What the events of one scope come to, once those of its body are understood. */
  lemma ScopeBehaves(s: State, kind: Kind, name: string, body: seq<Elem>)
    requires name != "" && !kind.Unsupported?
    requires var inside := s.(stack := s.stack + [OpenScope(s.stack, kind, name)]);
             Behaves(inside, BodyEvents(body), BodyGood(body), DirectMetrics(body), BodyRows(body, Enclosing(inside.stack)))
    ensures Behaves(s, ElemEvents(Scope(kind, name, body)), BodyGood(body), map[], ElemRows(Scope(kind, name, body), Enclosing(s.stack)))
  {
    var top, parent := OpenScope(s.stack, kind, name), Enclosing(s.stack);
    var inside := s.(stack := s.stack + [top]);
    var done := Steps(inside, BodyEvents(body));
    EnclosingPushed(s.stack, kind, name);
    assert ElemEvents(Scope(kind, name, body)) == [Start(kind, name)] + (BodyEvents(body) + [End]);
    StepFirst(s, Start(kind, name), BodyEvents(body) + [End]);
    StepsAppend(inside, BodyEvents(body), [End]);
    WithMetricsTwice(s.stack, map[], map[]);
    if kind.Instance? {
      EndInstance(s.rows, s.stack, top, done, BodyGood(body), DirectMetrics(body), BodyRows(body, top.fullName),
                  Named(Qualify(parent, name), Row(parent, PublicMetrics(DirectMetrics(body)))));
    } else {
      EndOther(s.rows, s.stack, top, done, BodyGood(body), DirectMetrics(body), BodyRows(body, parent));
    }
  }

  lemma {:induction false} ElemBehaves(s: State, e: Elem)
    ensures Behaves(s, ElemEvents(e), ElemGood(e), DirectMetrics([e]), ElemRows(e, Enclosing(s.stack)))
    decreases e, 0
  {
    assert [e][..0] == [];
    match e
    case Metric(m, v) =>
      assert DirectMetrics([e]) == map[m := v];
      MetricBehaves(s, m, v);
    case Scope(kind, name, body) =>
      assert DirectMetrics([e]) == map[];
      if name != "" && !kind.Unsupported? {
        BodyBehaves(s.(stack := s.stack + [OpenScope(s.stack, kind, name)]), body);
        ScopeBehaves(s, kind, name, body);
      } else {
        assert ElemEvents(e) == [Start(kind, name)] + (BodyEvents(body) + [End]);
        StepFirst(s, Start(kind, name), BodyEvents(body) + [End]);
      }
  }

  lemma {:induction false} BodyBehaves(s: State, body: seq<Elem>)
    ensures Behaves(s, BodyEvents(body), BodyGood(body), DirectMetrics(body), BodyRows(body, Enclosing(s.stack)))
    decreases body, 1
  {
    if body == [] {
      WithMetricsTwice(s.stack, map[], map[]);
    } else {
      var n := |body| - 1;
      var first, last := body[..n], body[n];
      var parent := Enclosing(s.stack);
      BodyBehaves(s, first);
      if BodyGood(first) && Fresh(s.rows, BodyRows(first, parent)) {
        EnclosingKeepsMetrics(s.stack, DirectMetrics(first));
        ElemBehaves(State(WithMetrics(s.stack, DirectMetrics(first)), Table(s.rows, BodyRows(first, parent))), last);
      }
      InSequence(s, BodyEvents(first), BodyGood(first), DirectMetrics(first), BodyRows(first, parent),
                 ElemEvents(last), ElemGood(last), DirectMetrics([last]), ElemRows(last, parent));
      DirectMetricsLast(body);
    }
  }

  lemma DirectMetricsLast(body: seq<Elem>)
    requires body != []
    ensures DirectMetrics(body) == DirectMetrics(body[..|body| - 1]) + DirectMetrics([body[|body| - 1]])
  {
    var last := body[|body| - 1];
    assert [last][..0] == [];
  }

  /** Two well-behaved pieces one after the other. */
  lemma InSequence(s: State, a: seq<Event>, goodA: bool, ma: Metrics, na: seq<Named>,
                   b: seq<Event>, goodB: bool, mb: Metrics, nb: seq<Named>)
    requires Behaves(s, a, goodA, ma, na)
    requires goodA && Fresh(s.rows, na) ==> Behaves(State(WithMetrics(s.stack, ma), Table(s.rows, na)), b, goodB, mb, nb)
    ensures Behaves(s, a + b, goodA && goodB, ma + mb, na + nb)
  {
    StepsAppend(s, a, b);
    TableAppend(s.rows, na, nb);
    FreshAppend(s.rows, na, nb);
    WithMetricsTwice(s.stack, ma, mb);
  }

  /**
   For every well-nested stream: parsing succeeds exactly when every scope is named and supported,
   at least one is an instance and no full name repeats; the table is then the document's rows, each
   full name the dot-join of the enclosing instances and each metric map the directly enclosed public metrics.
   */
  lemma ParseComputesRows(body: seq<Elem>)
    ensures var s := Steps(State([], map[]), BodyEvents(body));
            var named := BodyRows(body, None);
            if BodyGood(body) && Fresh(map[], named)
            then s == Ok(State([], Table(map[], named)))
            else s.Err?
  {
    BodyBehaves(State([], map[]), body);
  }

  // ---------- the hierarchy behind the rows ----------

  /** Every parent is itself a row, and a child's name extends its parent's. */
  ghost predicate Parented(rows: map<string, Row>) {
    forall n :: n in rows && rows[n].parent.Some? ==> rows[n].parent.value in rows && |n| > |rows[n].parent.value|
  }

  ghost predicate NamedWithin(named: seq<Named>, parent: Option<string>) {
    forall i :: 0 <= i < |named| && named[i].row.parent.Some? ==>
      && |named[i].fullName| > |named[i].row.parent.value|
      && (named[i].row.parent == parent || exists j :: 0 <= j < |named| && Some(named[j].fullName) == named[i].row.parent)
  }

  lemma WithinJoin(a: seq<Named>, b: seq<Named>, parent: Option<string>)
    requires NamedWithin(a, parent) && NamedWithin(b, parent)
    ensures NamedWithin(a + b, parent)
  {
    var c := a + b;
    forall i | 0 <= i < |c| && c[i].row.parent.Some? && c[i].row.parent != parent
      ensures exists j :: 0 <= j < |c| && Some(c[j].fullName) == c[i].row.parent
    {
      if i < |a| {
        var j :| 0 <= j < |a| && Some(a[j].fullName) == a[i].row.parent;
        assert c[j] == a[j];
      } else {
        var j :| 0 <= j < |b| && Some(b[j].fullName) == b[i - |a|].row.parent;
        assert c[|a| + j] == b[j];
      }
    }
  }

  lemma {:induction false} ElemRowsWithin(e: Elem, parent: Option<string>)
    ensures NamedWithin(ElemRows(e, parent), parent)
    decreases e, 0
  {
    if e.Scope? {
      if e.kind.Instance? {
        var full := Qualify(parent, e.name);
        BodyRowsWithin(e.body, Some(full));
        var inner := BodyRows(e.body, Some(full));
        var rows := ElemRows(e, parent);
        assert rows[|inner|].fullName == full;
        forall i | 0 <= i < |rows| && rows[i].row.parent.Some? && rows[i].row.parent != parent
          ensures exists j :: 0 <= j < |rows| && Some(rows[j].fullName) == rows[i].row.parent
        {
          assert rows[i] == inner[i];
          if inner[i].row.parent != Some(full) {
            var j :| 0 <= j < |inner| && Some(inner[j].fullName) == inner[i].row.parent;
            assert rows[j] == inner[j];
          }
        }
      } else {
        BodyRowsWithin(e.body, parent);
      }
    }
  }

  lemma {:induction false} BodyRowsWithin(body: seq<Elem>, parent: Option<string>)
    ensures NamedWithin(BodyRows(body, parent), parent)
    decreases body, 1
  {
    if body != [] {
      BodyRowsWithin(body[..|body| - 1], parent);
      ElemRowsWithin(body[|body| - 1], parent);
      WithinJoin(BodyRows(body[..|body| - 1], parent), ElemRows(body[|body| - 1], parent), parent);
    }
  }

  lemma {:induction false} TableAt(rows: map<string, Row>, named: seq<Named>, i: nat)
    requires i < |named| && Fresh(rows, named)
    ensures named[i].fullName in Table(rows, named) && Table(rows, named)[named[i].fullName] == named[i].row
  {
    var n := |named| - 1;
    if i < n { TableAt(rows, named[..n], i); }
  }

  /** The rows of a document form a forest. */
  lemma DocumentIsParented(body: seq<Elem>)
    requires Fresh(map[], BodyRows(body, None))
    ensures Parented(Table(map[], BodyRows(body, None)))
  {
    var named := BodyRows(body, None);
    var rows := Table(map[], named);
    BodyRowsWithin(body, None);
    TableKeys(map[], named);
    forall n | n in rows && rows[n].parent.Some?
      ensures rows[n].parent.value in rows && |n| > |rows[n].parent.value|
    {
      var i :| 0 <= i < |named| && named[i].fullName == n;
      TableAt(map[], named, i);
    }
  }

  // ---------- the child lists ----------

  function ByName(): string -> Key {
    (name: string) => [Word(name)]
  }

  predicate InOrder(s: seq<string>) {
    Ordered(s, ByName())
  }

  /** Exactly the rows under parent `p`, each once, except those in `left`. */
  ghost predicate ListOf(rows: map<string, Row>, s: seq<string>, p: string, left: set<string>) {
    forall n :: multiset(s)[n] == if n in rows && n !in left && rows[n].parent == Some(p) then 1 else 0
  }

  /** Every instance has its children, each once, in name order. */
  ghost predicate ChildLists(rows: map<string, Row>, children: map<string, seq<string>>) {
    && children.Keys == rows.Keys
    && forall p :: p in children ==> InOrder(children[p]) && ListOf(rows, children[p], p, {})
  }

  lemma ListGrows(rows: map<string, Row>, s: seq<string>, p: string, left: set<string>, n: string)
    requires ListOf(rows, s, p, left) && n in left && n in rows
    ensures ListOf(rows, if rows[n].parent == Some(p) then s + [n] else s, p, left - {n})
  {
  }

  /** The unsorted lists after appending each row to its parent's list, in any order of the rows. */
  method CollectChildren(rows: map<string, Row>) returns (lists: map<string, seq<string>>)
    requires Parented(rows)
    ensures lists.Keys == rows.Keys && forall p :: p in lists ==> ListOf(rows, lists[p], p, {})
  {
    lists := map n | n in rows :: [];
    var left := rows.Keys;
    while left != {}
      invariant left <= rows.Keys && lists.Keys == rows.Keys
      invariant forall p :: p in lists ==> ListOf(rows, lists[p], p, left)
      decreases left
    {
      var n :| n in left;
      var before := lists;
      if rows[n].parent.Some? {
        lists := lists[rows[n].parent.value := lists[rows[n].parent.value] + [n]];
      }
      forall p | p in lists ensures ListOf(rows, lists[p], p, left - {n}) {
        ListGrows(rows, before[p], p, left, n);
      }
      left := left - {n};
    }
  }

  method BuildChildren(rows: map<string, Row>) returns (children: map<string, seq<string>>)
    requires Parented(rows)
    ensures ChildLists(rows, children)
  {
    var lists := CollectChildren(rows);
    children := map p | p in lists :: Sort(lists[p], ByName());
    forall p | p in children ensures InOrder(children[p]) && ListOf(rows, children[p], p, {}) {
      SortOrders(lists[p], ByName());
      assert ListOf(rows, lists[p], p, {});
    }
  }

  // ---------- expanding one instance ----------

  /** `n` lies in the XML subtree of `root`. */
  predicate IsUnder(rows: map<string, Row>, n: string, root: string)
    requires Parented(rows) && n in rows
    decreases |n|
  {
    n == root || (rows[n].parent.Some? && IsUnder(rows, rows[n].parent.value, root))
  }

  ghost predicate Bounded(rows: map<string, Row>, bound: nat) {
    forall n :: n in rows ==> |n| <= bound
  }

  ghost predicate Tree(rows: map<string, Row>, children: map<string, seq<string>>, bound: nat) {
    Parented(rows) && ChildLists(rows, children) && Bounded(rows, bound)
  }

  lemma {:induction false} BoundExists(names: set<string>) returns (bound: nat)
    ensures forall n :: n in names ==> |n| <= bound
  {
    if names == {} {
      bound := 0;
    } else {
      var n :| n in names;
      var rest := BoundExists(names - {n});
      bound := if |n| > rest then |n| else rest;
    }
  }

  /** Node first, then its children's subtrees in order. */
  ghost function Preorder(rows: map<string, Row>, children: map<string, seq<string>>, bound: nat, n: string): seq<string>
    requires Tree(rows, children, bound) && n in rows
    decreases bound - |n|, 1, 0
  {
    [n] + Forest(rows, children, bound, n, children[n])
  }

  /** The subtrees of the names in a child list of `p`. */
  ghost function Forest(rows: map<string, Row>, children: map<string, seq<string>>, bound: nat, p: string, list: seq<string>): seq<string>
    requires Tree(rows, children, bound) && p in rows
    decreases bound - |p|, 0, |list|
  {
    if list == [] then []
    else
      (if list[0] in rows && |list[0]| > |p| then Preorder(rows, children, bound, list[0]) else [])
      + Forest(rows, children, bound, p, list[1..])
  }

  lemma {:induction false} UnderIsLonger(rows: map<string, Row>, n: string, root: string)
    requires Parented(rows) && n in rows && IsUnder(rows, n, root)
    ensures |n| >= |root| && (|n| == |root| ==> n == root) && root in rows
    decreases |n|
  {
    if n != root { UnderIsLonger(rows, rows[n].parent.value, root); }
  }

  /** Everything under a node is under the node's parent. */
  lemma {:induction false} UnderParent(rows: map<string, Row>, n: string, c: string, p: string)
    requires Parented(rows) && n in rows && c in rows && rows[c].parent == Some(p) && IsUnder(rows, n, c)
    ensures IsUnder(rows, n, p)
    decreases |n|
  {
    if n != c { UnderParent(rows, rows[n].parent.value, c, p); }
  }

  /** A node under `p` other than `p` is under exactly one child of `p`. */
  lemma {:induction false} UnderAChild(rows: map<string, Row>, n: string, p: string) returns (c: string)
    requires Parented(rows) && n in rows && IsUnder(rows, n, p) && n != p
    ensures c in rows && rows[c].parent == Some(p) && IsUnder(rows, n, c)
    decreases |n|
  {
    if rows[n].parent == Some(p) {
      c := n;
    } else {
      c := UnderAChild(rows, rows[n].parent.value, p);
    }
  }

  lemma {:induction false} OneChildOnly(rows: map<string, Row>, n: string, p: string, c: string, d: string)
    requires Parented(rows) && n in rows && c in rows && d in rows
    requires rows[c].parent == Some(p) && rows[d].parent == Some(p) && IsUnder(rows, n, c) && IsUnder(rows, n, d)
    ensures c == d
    decreases |n|
  {
    if n != c && n != d {
      OneChildOnly(rows, rows[n].parent.value, p, c, d);
    } else if c != d {
      UnderIsLonger(rows, p, if n == c then d else c);
    }
  }

  /** `x` lies in the subtree of some name in the list. */
  ghost predicate InSome(rows: map<string, Row>, list: seq<string>, x: string)
    requires Parented(rows)
  {
    x in rows && exists c :: c in list && IsUnder(rows, x, c)
  }

  /** Each name of the list is a child of `p`, and none is listed twice. */
  ghost predicate ChildrenOf(rows: map<string, Row>, p: string, list: seq<string>) {
    forall c :: c in list ==> c in rows && rows[c].parent == Some(p) && |c| > |p| && multiset(list)[c] == 1
  }

  lemma ChildListIsChildren(rows: map<string, Row>, children: map<string, seq<string>>, p: string)
    requires Parented(rows) && ChildLists(rows, children) && p in rows
    ensures ChildrenOf(rows, p, children[p])
  {
    assert ListOf(rows, children[p], p, {});
    forall c | c in children[p] ensures c in rows && rows[c].parent == Some(p) && |c| > |p| && multiset(children[p])[c] == 1 {
      assert multiset(children[p])[c] > 0;
    }
  }

  lemma ChildrenTail(rows: map<string, Row>, p: string, list: seq<string>)
    requires list != [] && ChildrenOf(rows, p, list)
    ensures ChildrenOf(rows, p, list[1..]) && list[0] !in list[1..]
    ensures list[0] in rows && rows[list[0]].parent == Some(p) && |list[0]| > |p|
  {
    var c, rest := list[0], list[1..];
    assert list == [c] + rest;
    assert multiset(list) == multiset{c} + multiset(rest);
    assert c in list && multiset(list)[c] == 1;
    forall d | d in rest ensures d in rows && rows[d].parent == Some(p) && |d| > |p| && multiset(rest)[d] == 1 {
      assert d in list && d in multiset(rest);
    }
  }

  lemma InSomeSplits(rows: map<string, Row>, p: string, list: seq<string>, x: string)
    requires Parented(rows) && list != [] && ChildrenOf(rows, p, list)
    ensures InSome(rows, list, x) <==> (x in rows && IsUnder(rows, x, list[0])) || InSome(rows, list[1..], x)
    ensures !(x in rows && IsUnder(rows, x, list[0]) && InSome(rows, list[1..], x))
  {
    assert list == [list[0]] + list[1..];
    ChildrenTail(rows, p, list);
    if x in rows && IsUnder(rows, x, list[0]) && InSome(rows, list[1..], x) {
      var d :| d in list[1..] && IsUnder(rows, x, d);
      OneChildOnly(rows, x, p, list[0], d);
    }
  }

  lemma InSomeChild(rows: map<string, Row>, children: map<string, seq<string>>, p: string, x: string)
    requires Parented(rows) && ChildLists(rows, children) && p in rows
    ensures InSome(rows, children[p], x) <==> x in rows && IsUnder(rows, x, p) && x != p
  {
    ChildListIsChildren(rows, children, p);
    if x in rows && IsUnder(rows, x, p) && x != p {
      var c := UnderAChild(rows, x, p);
      assert ListOf(rows, children[p], p, {});
      assert multiset(children[p])[c] == 1;
    } else if InSome(rows, children[p], x) {
      var c :| c in children[p] && IsUnder(rows, x, c);
      UnderParent(rows, x, c, p);
      UnderIsLonger(rows, x, c);
    }
  }

  /** The preorder of a node lists its XML subtree, each node once. */
  lemma {:induction false} PreorderIsSubtree(rows: map<string, Row>, children: map<string, seq<string>>, bound: nat, n: string, x: string)
    requires Tree(rows, children, bound) && n in rows
    ensures multiset(Preorder(rows, children, bound, n))[x] == if x in rows && IsUnder(rows, x, n) then 1 else 0
    decreases bound - |n|, 1, 0
  {
    ChildListIsChildren(rows, children, n);
    ForestIsSubtrees(rows, children, bound, n, children[n], x);
    InSomeChild(rows, children, n, x);
  }

  lemma {:induction false} ForestIsSubtrees(rows: map<string, Row>, children: map<string, seq<string>>, bound: nat,
                                            p: string, list: seq<string>, x: string)
    requires Tree(rows, children, bound) && p in rows && ChildrenOf(rows, p, list)
    ensures multiset(Forest(rows, children, bound, p, list))[x] == if InSome(rows, list, x) then 1 else 0
    decreases bound - |p|, 0, |list|
  {
    if list != [] {
      ChildrenTail(rows, p, list);
      PreorderIsSubtree(rows, children, bound, list[0], x);
      ForestIsSubtrees(rows, children, bound, p, list[1..], x);
      InSomeSplits(rows, p, list, x);
    }
  }

  function Reversed(s: seq<string>): seq<string> {
    if s == [] then [] else Reversed(s[1..]) + [s[0]]
  }

  /** What a worklist still has to deliver: its last entry's subtree first. */
  ghost function Owed(rows: map<string, Row>, children: map<string, seq<string>>, bound: nat, pending: seq<string>): seq<string>
    requires Tree(rows, children, bound)
  {
    if pending == [] then []
    else
      var n := pending[|pending| - 1];
      (if n in rows then Preorder(rows, children, bound, n) else [])
      + Owed(rows, children, bound, pending[..|pending| - 1])
  }

  lemma OwedPush(rows: map<string, Row>, children: map<string, seq<string>>, bound: nat, pending: seq<string>, n: string)
    requires Tree(rows, children, bound) && n in rows
    ensures Owed(rows, children, bound, pending + [n]) == Preorder(rows, children, bound, n) + Owed(rows, children, bound, pending)
  {
    assert (pending + [n])[..|pending|] == pending;
  }

  /** Pushing a child list in reverse owes the forest of that list next. */
  lemma {:induction false} OwedReversed(rows: map<string, Row>, children: map<string, seq<string>>, bound: nat,
                                        pending: seq<string>, p: string, list: seq<string>)
    requires Tree(rows, children, bound) && p in rows && ChildrenOf(rows, p, list)
    ensures Owed(rows, children, bound, pending + Reversed(list))
         == Forest(rows, children, bound, p, list) + Owed(rows, children, bound, pending)
    decreases |list|
  {
    if list == [] {
      assert pending + [] == pending;
    } else {
      var rest := list[1..];
      ChildrenTail(rows, p, list);
      OwedReversed(rows, children, bound, pending, p, rest);
      OwedPush(rows, children, bound, pending + Reversed(rest), list[0]);
      Associate(pending, Reversed(rest), [list[0]]);
      Associate(Preorder(rows, children, bound, list[0]), Forest(rows, children, bound, p, rest), Owed(rows, children, bound, pending));
    }
  }

  lemma {:induction false} ReversedMembers(s: seq<string>)
    ensures multiset(Reversed(s)) == multiset(s)
  {
    if s != [] {
      ReversedMembers(s[1..]);
      assert s == [s[0]] + s[1..];
    }
  }

  lemma Associate(a: seq<string>, b: seq<string>, c: seq<string>)
    ensures (a + b) + c == a + (b + c)
  {
  }

  lemma PushedAreRows(rows: map<string, Row>, p: string, others: seq<string>, list: seq<string>)
    requires ChildrenOf(rows, p, list) && forall n :: n in others ==> n in rows
    ensures forall m :: m in others + Reversed(list) ==> m in rows
  {
    ReversedMembers(list);
    forall m | m in others + Reversed(list) ensures m in rows {
      if m !in others { assert m in multiset(Reversed(list)); assert m in list; }
    }
  }

  /** One turn of the worklist: deliver the last entry, owe its children. */
  lemma OneTurn(rows: map<string, Row>, children: map<string, seq<string>>, bound: nat, others: seq<string>, n: string)
    requires Tree(rows, children, bound) && n in rows && forall m :: m in others ==> m in rows
    ensures Owed(rows, children, bound, others + [n])
         == [n] + Owed(rows, children, bound, others + Reversed(children[n]))
    ensures forall m :: m in others + Reversed(children[n]) ==> m in rows
  {
    ChildListIsChildren(rows, children, n);
    OwedPush(rows, children, bound, others, n);
    OwedReversed(rows, children, bound, others, n, children[n]);
    PushedAreRows(rows, n, others, children[n]);
    Associate([n], Forest(rows, children, bound, n, children[n]), Owed(rows, children, bound, others));
  }

  /** Delivered plus owed is the answer. */
  ghost predicate Delivering(rows: map<string, Row>, children: map<string, seq<string>>, bound: nat,
                             result: seq<string>, pending: seq<string>, goal: seq<string>)
    requires Tree(rows, children, bound)
  {
    (forall n :: n in pending ==> n in rows) && result + Owed(rows, children, bound, pending) == goal
  }

  lemma Deliver(rows: map<string, Row>, children: map<string, seq<string>>, bound: nat,
                result: seq<string>, others: seq<string>, n: string, goal: seq<string>)
    requires Tree(rows, children, bound) && Delivering(rows, children, bound, result, others + [n], goal)
    ensures n in rows
    ensures Delivering(rows, children, bound, result + [n], others + Reversed(children[n]), goal)
    ensures |Owed(rows, children, bound, others + Reversed(children[n]))| < |Owed(rows, children, bound, others + [n])|
  {
    assert n in others + [n];
    OneTurn(rows, children, bound, others, n);
    Associate(result, [n], Owed(rows, children, bound, others + Reversed(children[n])));
  }

  lemma SplitLast(s: seq<string>)
    requires s != []
    ensures s == s[..|s| - 1] + [s[|s| - 1]]
  {
  }

  /** The worklist loop: a stack that receives each node's children in reverse. */
  method Worklist(rows: map<string, Row>, children: map<string, seq<string>>, root: string, ghost bound: nat)
    returns (result: seq<string>)
    requires Tree(rows, children, bound) && root in rows
    ensures result == Preorder(rows, children, bound, root)
  {
    result := [];
    var pending := [root];
    ghost var goal := Preorder(rows, children, bound, root);
    OwedPush(rows, children, bound, [], root);
    assert [] + [root] == pending && [] + (goal + []) == goal;
    while pending != []
      invariant Delivering(rows, children, bound, result, pending, goal)
      decreases |Owed(rows, children, bound, pending)|
    {
      var current := pending[|pending| - 1];
      var others := pending[..|pending| - 1];
      SplitLast(pending);
      Deliver(rows, children, bound, result, others, current, goal);
      result := result + [current];
      pending := others + Reversed(children[current]);
    }
    assert result + [] == result;
  }

  /** `expand_xml_instances`. */
  method ExpandXmlInstances(rows: map<string, Row>, children: map<string, seq<string>>, root: string, recursive: bool, ghost bound: nat)
    returns (r: Option<seq<string>>)
    requires Tree(rows, children, bound)
    ensures r.Some? <==> root in rows
    ensures r.Some? && !recursive ==> r.value == [root]
    ensures r.Some? && recursive ==> r.value == Preorder(rows, children, bound, root)
  {
    if root !in rows { return None; }
    if !recursive { return Some([root]); }
    var result := Worklist(rows, children, root, bound);
    r := Some(result);
  }

  /** The rows of an instance's body are under that instance in any table that holds them. */
  lemma {:induction false} EnclosedIsUnder(rows: map<string, Row>, body: seq<Elem>, full: string, i: nat)
    requires Parented(rows) && full in rows && i < |BodyRows(body, Some(full))|
    requires forall n :: n in BodyRows(body, Some(full)) ==> n.fullName in rows && rows[n.fullName] == n.row
    ensures IsUnder(rows, BodyRows(body, Some(full))[i].fullName, full)
    decreases |BodyRows(body, Some(full))[i].fullName|
  {
    var named := BodyRows(body, Some(full));
    BodyRowsWithin(body, Some(full));
    assert named[i] in named;
    RowsHaveParents(body, full, i);
    if named[i].row.parent != Some(full) {
      var j :| 0 <= j < |named| && Some(named[j].fullName) == named[i].row.parent;
      EnclosedIsUnder(rows, body, full, j);
    }
  }

  /** Nothing inside an instance is a root. */
  lemma {:induction false} RowsHaveParents(body: seq<Elem>, full: string, i: nat)
    requires i < |BodyRows(body, Some(full))|
    ensures BodyRows(body, Some(full))[i].row.parent.Some?
    decreases body, 1
  {
    var n := |body| - 1;
    var before := BodyRows(body[..n], Some(full));
    if i < |before| {
      RowsHaveParents(body[..n], full, i);
    } else {
      match body[n]
      case Scope(kind, name, inner) =>
        var j := i - |before|;
        if kind.Instance? {
          var within := Qualify(Some(full), name);
          if j < |BodyRows(inner, Some(within))| { RowsHaveParents(inner, within, j); }
        } else {
          RowsHaveParents(inner, full, j);
        }
      case Metric(_, _) =>
    }
  }

  // ---------- the order of the expansion ----------

  /** `c` and `d` are different children of one parent, `c` not after `d` by name. */
  predicate SiblingBefore(rows: map<string, Row>, c: string, d: string) {
    && c in rows && d in rows && c != d && rows[c].parent.Some? && rows[c].parent == rows[d].parent
    && KeyLe(ByName()(c), ByName()(d))
  }

  /** Either `y` lies below `x`, or `x` lies in the subtree of an earlier sibling. */
  ghost predicate Precedes(rows: map<string, Row>, x: string, y: string)
    requires Parented(rows) && x in rows && y in rows
  {
    || (x != y && IsUnder(rows, y, x))
    || exists c, d :: SiblingBefore(rows, c, d) && IsUnder(rows, x, c) && IsUnder(rows, y, d)
  }

  ghost predicate InPreorder(rows: map<string, Row>, list: seq<string>) {
    && Parented(rows) && (forall x :: x in list ==> x in rows)
    && forall i, j :: 0 <= i < j < |list| ==> Precedes(rows, list[i], list[j])
  }

  lemma InPreorderJoin(rows: map<string, Row>, a: seq<string>, b: seq<string>)
    requires InPreorder(rows, a) && InPreorder(rows, b)
    requires forall x, y :: x in a && y in b ==> Precedes(rows, x, y)
    ensures InPreorder(rows, a + b)
  {
    var all := a + b;
    forall i, j | 0 <= i < j < |all| ensures Precedes(rows, all[i], all[j]) {
      if j < |a| { assert all[i] == a[i] && all[j] == a[j]; }
      else if i < |a| { assert all[i] == a[i] && all[j] == b[j - |a|]; }
      else { assert all[i] == b[i - |a|] && all[j] == b[j - |a|]; }
    }
  }

  lemma ForestMembers(rows: map<string, Row>, children: map<string, seq<string>>, bound: nat, p: string, list: seq<string>)
    requires Tree(rows, children, bound) && p in rows && ChildrenOf(rows, p, list)
    ensures forall x :: x in Forest(rows, children, bound, p, list) ==> InSome(rows, list, x)
  {
    forall x | x in Forest(rows, children, bound, p, list) ensures InSome(rows, list, x) {
      ForestIsSubtrees(rows, children, bound, p, list, x);
      assert x in multiset(Forest(rows, children, bound, p, list));
    }
  }

  lemma PreorderMembers(rows: map<string, Row>, children: map<string, seq<string>>, bound: nat, n: string)
    requires Tree(rows, children, bound) && n in rows
    ensures forall x :: x in Preorder(rows, children, bound, n) ==> x in rows && IsUnder(rows, x, n)
  {
    forall x | x in Preorder(rows, children, bound, n) ensures x in rows && IsUnder(rows, x, n) {
      PreorderIsSubtree(rows, children, bound, n, x);
      assert x in multiset(Preorder(rows, children, bound, n));
    }
  }

  /** What lies under the first of a sorted list of children precedes what lies under the others. */
  lemma FirstPrecedes(rows: map<string, Row>, p: string, list: seq<string>, x: string, y: string)
    requires Parented(rows) && list != [] && ChildrenOf(rows, p, list) && InOrder(list)
    requires x in rows && IsUnder(rows, x, list[0]) && InSome(rows, list[1..], y)
    ensures Precedes(rows, x, y)
  {
    ChildrenTail(rows, p, list);
    var d :| d in list[1..] && IsUnder(rows, y, d);
    var k :| 0 <= k < |list| - 1 && list[1..][k] == d;
    assert d == list[k + 1] && d in list;
    assert SiblingBefore(rows, list[0], d);
  }

  lemma InOrderTail(list: seq<string>)
    requires InOrder(list) && list != []
    ensures InOrder(list[1..])
  {
  }

  /** The preorder of a node lists it before what is below it, and siblings' subtrees by name. */
  lemma {:induction false} PreorderIsOrdered(rows: map<string, Row>, children: map<string, seq<string>>, bound: nat, n: string)
    requires Tree(rows, children, bound) && n in rows
    ensures InPreorder(rows, Preorder(rows, children, bound, n))
    decreases bound - |n|, 1, 0
  {
    ChildListIsChildren(rows, children, n);
    ForestIsOrdered(rows, children, bound, n, children[n]);
    ForestMembers(rows, children, bound, n, children[n]);
    forall y | y in Forest(rows, children, bound, n, children[n]) ensures Precedes(rows, n, y) {
      InSomeChild(rows, children, n, y);
    }
    InPreorderJoin(rows, [n], Forest(rows, children, bound, n, children[n]));
  }

  lemma {:induction false} ForestIsOrdered(rows: map<string, Row>, children: map<string, seq<string>>, bound: nat,
                                           p: string, list: seq<string>)
    requires Tree(rows, children, bound) && p in rows && ChildrenOf(rows, p, list) && InOrder(list)
    ensures InPreorder(rows, Forest(rows, children, bound, p, list))
    decreases bound - |p|, 0, |list|
  {
    if list != [] {
      var first, rest := list[0], list[1..];
      ChildrenTail(rows, p, list);
      InOrderTail(list);
      PreorderIsOrdered(rows, children, bound, first);
      ForestIsOrdered(rows, children, bound, p, rest);
      PreorderMembers(rows, children, bound, first);
      ForestMembers(rows, children, bound, p, rest);
      var a, b := Preorder(rows, children, bound, first), Forest(rows, children, bound, p, rest);
      forall x, y | x in a && y in b ensures Precedes(rows, x, y) { FirstPrecedes(rows, p, list, x, y); }
      InPreorderJoin(rows, a, b);
    }
  }

  /** Two nodes above one node are above one another. */
  lemma {:induction false} AboveOne(rows: map<string, Row>, x: string, a: string, b: string)
    requires Parented(rows) && x in rows && IsUnder(rows, x, a) && IsUnder(rows, x, b)
    ensures a in rows && b in rows && (IsUnder(rows, a, b) || IsUnder(rows, b, a))
    decreases |x|
  {
    UnderIsLonger(rows, x, a);
    UnderIsLonger(rows, x, b);
    if x != a && x != b { AboveOne(rows, rows[x].parent.value, a, b); }
  }

  lemma {:induction false} UnderTransitive(rows: map<string, Row>, x: string, a: string, b: string)
    requires Parented(rows) && x in rows && a in rows && IsUnder(rows, x, a) && IsUnder(rows, a, b)
    ensures IsUnder(rows, x, b)
    decreases |x|
  {
    if x != a { UnderTransitive(rows, rows[x].parent.value, a, b); }
  }

  /** Below different siblings nothing is shared. */
  lemma SiblingsShareNothing(rows: map<string, Row>, x: string, c: string, d: string)
    requires Parented(rows) && x in rows && SiblingBefore(rows, c, d)
    ensures !(IsUnder(rows, x, c) && IsUnder(rows, x, d))
  {
    if IsUnder(rows, x, c) && IsUnder(rows, x, d) { OneChildOnly(rows, x, rows[c].parent.value, c, d); }
  }

  /** `x` under `c` and `y` under a later sibling: then `y` is not above `x`. */
  lemma NotAboveEarlier(rows: map<string, Row>, x: string, y: string, c: string, d: string)
    requires Parented(rows) && x in rows && y in rows && SiblingBefore(rows, c, d) && IsUnder(rows, x, c) && IsUnder(rows, y, d)
    ensures !IsUnder(rows, x, y) && !IsUnder(rows, y, x)
  {
    if IsUnder(rows, x, y) {
      UnderTransitive(rows, x, y, d);
      SiblingsShareNothing(rows, x, c, d);
    } else if IsUnder(rows, y, x) {
      UnderTransitive(rows, y, x, c);
      SiblingsShareNothing(rows, y, c, d);
    }
  }

  /** If a node is strictly under another, so are its siblings. */
  lemma SiblingUnder(rows: map<string, Row>, c: string, d: string, above: string)
    requires Parented(rows) && c in rows && d in rows && rows[c].parent.Some? && rows[c].parent == rows[d].parent
    requires IsUnder(rows, c, above) && c != above
    ensures IsUnder(rows, d, above)
  {
  }

  lemma NamesInOrder(c: string, d: string)
    requires KeyLe(ByName()(c), ByName()(d)) && KeyLe(ByName()(d), ByName()(c))
    ensures c == d
  {
    KeyOrder(ByName()(c), ByName()(d));
    assert [Word(c)][0] == [Word(d)][0];
  }

  lemma SamePairTurned(rows: map<string, Row>, y: string, c: string, d: string, e: string)
    requires Parented(rows) && y in rows && SiblingBefore(rows, c, d) && SiblingBefore(rows, e, c) && IsUnder(rows, y, d)
    ensures !IsUnder(rows, y, e)
  {
    if IsUnder(rows, y, e) {
      OneChildOnly(rows, y, rows[c].parent.value, d, e);
      NamesInOrder(c, d);
    }
  }

  /** Two nodes branch at one pair of siblings, so in one order only. */
  lemma BranchIsOneWay(rows: map<string, Row>, x: string, y: string, c: string, d: string, e: string, f: string)
    requires Parented(rows) && x in rows && y in rows && SiblingBefore(rows, c, d) && SiblingBefore(rows, e, f)
    requires IsUnder(rows, x, c) && IsUnder(rows, y, d) && IsUnder(rows, x, f)
    ensures !IsUnder(rows, y, e)
  {
    AboveOne(rows, x, c, f);
    SiblingsShareNothing(rows, y, e, f);
    SiblingsShareNothing(rows, y, c, d);
    if c == f {
      if IsUnder(rows, y, e) { SamePairTurned(rows, y, c, d, e); }
    } else if IsUnder(rows, c, f) {
      SiblingUnder(rows, c, d, f);
      UnderTransitive(rows, y, d, f);
    } else {
      SiblingUnder(rows, f, e, c);
      if IsUnder(rows, y, e) { UnderTransitive(rows, y, e, c); }
    }
  }

  /** No two nodes precede each other, and none precedes itself. */
  lemma PrecedesOneWay(rows: map<string, Row>, x: string, y: string)
    requires Parented(rows) && x in rows && y in rows && Precedes(rows, x, y)
    ensures x != y && !Precedes(rows, y, x)
  {
    if x != y && IsUnder(rows, y, x) {
      if IsUnder(rows, x, y) { UnderIsLonger(rows, x, y); UnderIsLonger(rows, y, x); }
      forall c, d | SiblingBefore(rows, c, d) ensures !(IsUnder(rows, y, c) && IsUnder(rows, x, d)) {
        if IsUnder(rows, y, c) && IsUnder(rows, x, d) { NotAboveEarlier(rows, y, x, c, d); }
      }
    } else {
      var c, d :| SiblingBefore(rows, c, d) && IsUnder(rows, x, c) && IsUnder(rows, y, d);
      NotAboveEarlier(rows, x, y, c, d);
      forall e, f | SiblingBefore(rows, e, f) ensures !(IsUnder(rows, y, e) && IsUnder(rows, x, f)) {
        if IsUnder(rows, y, e) && IsUnder(rows, x, f) { BranchIsOneWay(rows, x, y, c, d, e, f); }
      }
    }
  }

  lemma TailInPreorder(rows: map<string, Row>, list: seq<string>)
    requires list != [] && InPreorder(rows, list)
    ensures InPreorder(rows, list[1..])
    ensures multiset(list[1..]) == multiset(list) - multiset{list[0]}
  {
    assert list == [list[0]] + list[1..];
  }

  lemma FirstIsSame(rows: map<string, Row>, a: seq<string>, b: seq<string>)
    requires InPreorder(rows, a) && InPreorder(rows, b) && multiset(a) == multiset(b) && a != [] && b != []
    ensures a[0] == b[0]
  {
    assert a[0] in multiset(b) && b[0] in multiset(a);
    var i :| 0 <= i < |b| && b[i] == a[0];
    var j :| 0 <= j < |a| && a[j] == b[0];
    if i > 0 && j > 0 { PrecedesOneWay(rows, a[0], b[0]); }
  }

  /** One set of instances has one preorder. */
  lemma {:induction false} PreorderIsUnique(rows: map<string, Row>, a: seq<string>, b: seq<string>)
    requires InPreorder(rows, a) && InPreorder(rows, b) && multiset(a) == multiset(b)
    ensures a == b
  {
    assert |multiset(a)| == |a| && |multiset(b)| == |b|;
    if a != [] {
      FirstIsSame(rows, a, b);
      TailInPreorder(rows, a);
      TailInPreorder(rows, b);
      PreorderIsUnique(rows, a[1..], b[1..]);
      assert a == [a[0]] + a[1..] && b == [b[0]] + b[1..];
    }
  }

  // ---------- the subtree is what the document encloses ----------

  function NamesOf(named: seq<Named>): set<string> {
    set i | 0 <= i < |named| :: named[i].fullName
  }

  /** The rows that the document has strictly inside the instance `full`. */
  function InsideElem(e: Elem, parent: Option<string>, full: string): seq<Named>
    decreases e, 0
  {
    match e
    case Metric(_, _) => []
    case Scope(Instance, name, body) =>
      var own := Qualify(parent, name);
      if own == full then BodyRows(body, Some(own)) else InsideBody(body, Some(own), full)
    case Scope(_, _, body) => InsideBody(body, parent, full)
  }

  function InsideBody(body: seq<Elem>, parent: Option<string>, full: string): seq<Named>
    decreases body, 1
  {
    if body == [] then []
    else InsideBody(body[..|body| - 1], parent, full) + InsideElem(body[|body| - 1], parent, full)
  }

  lemma NamesAppend(a: seq<Named>, b: seq<Named>)
    ensures NamesOf(a + b) == NamesOf(a) + NamesOf(b)
  {
    forall x | x in NamesOf(a) + NamesOf(b) ensures x in NamesOf(a + b) {
      if x in NamesOf(a) {
        var i :| 0 <= i < |a| && a[i].fullName == x;
        assert (a + b)[i] == a[i];
      } else {
        var i :| 0 <= i < |b| && b[i].fullName == x;
        assert (a + b)[|a| + i] == b[i];
      }
    }
  }

  /** Names below an enclosing instance are longer than its name. */
  predicate Longer(named: seq<Named>, parent: Option<string>) {
    parent.Some? ==> forall i :: 0 <= i < |named| ==> |named[i].fullName| > |parent.value|
  }

  lemma {:induction false} ElemIsLonger(e: Elem, parent: Option<string>)
    ensures Longer(ElemRows(e, parent), parent)
    decreases e, 0
  {
    if e.Scope? {
      BodyIsLonger(e.body, if e.kind.Instance? then Some(Qualify(parent, e.name)) else parent);
    }
  }

  lemma {:induction false} BodyIsLonger(body: seq<Elem>, parent: Option<string>)
    ensures Longer(BodyRows(body, parent), parent)
    decreases body, 1
  {
    if body != [] {
      BodyIsLonger(body[..|body| - 1], parent);
      ElemIsLonger(body[|body| - 1], parent);
    }
  }

  /** What is inside an instance is among the rows; without the instance nothing is. */
  lemma {:induction false} InsideElemIsPart(e: Elem, parent: Option<string>, full: string)
    ensures NamesOf(InsideElem(e, parent, full)) <= NamesOf(ElemRows(e, parent))
    ensures full !in NamesOf(ElemRows(e, parent)) ==> InsideElem(e, parent, full) == []
    decreases e, 0
  {
    if e.Scope? {
      if e.kind.Instance? {
        var own := Qualify(parent, e.name);
        var row := Named(own, Row(parent, PublicMetrics(DirectMetrics(e.body))));
        NamesAppend(BodyRows(e.body, Some(own)), [row]);
        assert [row][0].fullName == own && own in NamesOf([row]);
        if own != full { InsideBodyIsPart(e.body, Some(own), full); }
      } else {
        InsideBodyIsPart(e.body, parent, full);
      }
    }
  }

  lemma {:induction false} InsideBodyIsPart(body: seq<Elem>, parent: Option<string>, full: string)
    ensures NamesOf(InsideBody(body, parent, full)) <= NamesOf(BodyRows(body, parent))
    ensures full !in NamesOf(BodyRows(body, parent)) ==> InsideBody(body, parent, full) == []
    decreases body, 1
  {
    if body != [] {
      var init, last := body[..|body| - 1], body[|body| - 1];
      InsideBodyIsPart(init, parent, full);
      InsideElemIsPart(last, parent, full);
      NamesAppend(InsideBody(init, parent, full), InsideElem(last, parent, full));
      NamesAppend(BodyRows(init, parent), ElemRows(last, parent));
    }
  }

  predicate DistinctNames(named: seq<Named>) {
    forall i, j :: 0 <= i < j < |named| ==> named[i].fullName != named[j].fullName
  }

  lemma DistinctParts(a: seq<Named>, b: seq<Named>)
    requires DistinctNames(a + b)
    ensures DistinctNames(a) && DistinctNames(b) && NamesOf(a) !! NamesOf(b)
  {
    var c := a + b;
    forall i, j | 0 <= i < j < |a| ensures a[i].fullName != a[j].fullName { assert c[i] == a[i] && c[j] == a[j]; }
    forall i, j | 0 <= i < j < |b| ensures b[i].fullName != b[j].fullName { assert c[|a| + i] == b[i] && c[|a| + j] == b[j]; }
    forall x | x in NamesOf(a) ensures x !in NamesOf(b) {
      var i :| 0 <= i < |a| && a[i].fullName == x;
      forall j | 0 <= j < |b| ensures b[j].fullName != x { assert c[i] == a[i] && c[|a| + j] == b[j]; }
    }
  }

  /** The parent is the instance or inside it. */
  predicate ParentInside(row: Row, full: string, inside: seq<Named>) {
    row.parent.Some? && (row.parent.value == full || row.parent.value in NamesOf(inside))
  }

  /** A row whose parent is the instance or inside it is inside it. */
  ghost predicate ClosedInside(named: seq<Named>, full: string, inside: seq<Named>) {
    forall i :: 0 <= i < |named| && ParentInside(named[i].row, full, inside) ==> named[i].fullName in NamesOf(inside)
  }

  lemma NameAt(named: seq<Named>, i: nat)
    requires i < |named|
    ensures named[i].fullName in NamesOf(named)
  {
  }

  lemma ShorterIsOutside(part: seq<Named>, parent: Option<string>)
    requires Longer(part, parent) && parent.Some?
    ensures parent.value !in NamesOf(part)
  {
  }

  lemma ParentIsBeside(beside: seq<Named>, parent: Option<string>, i: nat)
    requires NamedWithin(beside, parent) && i < |beside| && beside[i].row.parent.Some? && beside[i].row.parent != parent
    ensures beside[i].row.parent.value in NamesOf(beside)
  {
    var j :| 0 <= j < |beside| && Some(beside[j].fullName) == beside[i].row.parent;
    NameAt(beside, j);
  }

  /** Rows beside the part that holds the instance have their parents beside it too. */
  lemma BesideIsOutside(part: seq<Named>, inside: seq<Named>, beside: seq<Named>, parent: Option<string>, full: string, i: nat)
    requires NamedWithin(beside, parent) && Longer(part, parent)
    requires full in NamesOf(part) && NamesOf(inside) <= NamesOf(part) && NamesOf(part) !! NamesOf(beside)
    requires i < |beside|
    ensures !ParentInside(beside[i].row, full, inside)
  {
    var above := beside[i].row.parent;
    if above.Some? {
      if above == parent { ShorterIsOutside(part, parent); } else { ParentIsBeside(beside, parent, i); }
      assert above.value !in NamesOf(part);
    }
  }

  lemma ClosedBeside(a: seq<Named>, b: seq<Named>, inside: seq<Named>, parent: Option<string>, full: string)
    requires ClosedInside(a, full, inside) && NamedWithin(b, parent) && Longer(a, parent)
    requires full in NamesOf(a) && NamesOf(inside) <= NamesOf(a) && NamesOf(a) !! NamesOf(b)
    ensures ClosedInside(a + b, full, inside) && ClosedInside(b + a, full, inside)
  {
    forall i | 0 <= i < |b| ensures !ParentInside(b[i].row, full, inside) { BesideIsOutside(a, inside, b, parent, full, i); }
  }

  lemma {:induction false} ElemIsClosed(e: Elem, parent: Option<string>, full: string)
    requires DistinctNames(ElemRows(e, parent)) && full in NamesOf(ElemRows(e, parent))
    ensures ClosedInside(ElemRows(e, parent), full, InsideElem(e, parent, full))
    decreases e, 0
  {
    if e.Scope? {
      if e.kind.Instance? {
        var own := Qualify(parent, e.name);
        InstanceIsClosed(e.body, parent, own, Named(own, Row(parent, PublicMetrics(DirectMetrics(e.body)))), full);
      } else {
        BodyIsClosed(e.body, parent, full);
      }
    }
  }

  lemma OwnRow(row: Named)
    ensures NamesOf([row]) == {row.fullName}
  {
    assert [row][0].fullName in NamesOf([row]);
  }

  lemma {:induction false} InstanceIsClosed(body: seq<Elem>, parent: Option<string>, own: string, row: Named, full: string)
    requires row.fullName == own && row.row.parent == parent && (parent.Some? ==> |own| > |parent.value|)
    requires DistinctNames(BodyRows(body, Some(own)) + [row]) && full in NamesOf(BodyRows(body, Some(own)) + [row])
    ensures ClosedInside(BodyRows(body, Some(own)) + [row], full, if own == full then BodyRows(body, Some(own)) else InsideBody(body, Some(own), full))
    decreases body, 2
  {
    var rows := BodyRows(body, Some(own));
    OwnRow(row);
    NamesAppend(rows, [row]);
    DistinctParts(rows, [row]);
    BodyIsLonger(body, Some(own));
    if own == full {
      forall i | 0 <= i < |rows| ensures rows[i].fullName in NamesOf(rows) { NameAt(rows, i); }
      OwnIsOutside(rows, row, own);
    } else {
      BodyIsClosed(body, Some(own), full);
      InsideBodyIsPart(body, Some(own), full);
      OutsideOwn(rows, InsideBody(body, Some(own), full), row, own, full);
    }
  }

  lemma NamesAreLonger(named: seq<Named>, parent: string)
    requires Longer(named, Some(parent))
    ensures forall x :: x in NamesOf(named) ==> |x| > |parent|
  {
  }

  /** The instance's own row is not inside it. */
  lemma OwnIsOutside(rows: seq<Named>, row: Named, own: string)
    requires Longer(rows, Some(own)) && (row.row.parent.Some? ==> |own| > |row.row.parent.value|)
    ensures !ParentInside(row.row, own, rows)
  {
    NamesAreLonger(rows, own);
  }

  /** The row of an instance around the one meant is not inside that one. */
  lemma OutsideOwn(rows: seq<Named>, inside: seq<Named>, row: Named, own: string, full: string)
    requires ClosedInside(rows, full, inside) && Longer(rows, Some(own)) && full in NamesOf(rows) && NamesOf(inside) <= NamesOf(rows)
    requires row.row.parent.Some? ==> |own| > |row.row.parent.value|
    ensures ClosedInside(rows + [row], full, inside)
  {
    NamesAreLonger(rows, own);
    assert !ParentInside(row.row, full, inside);
  }

  lemma {:induction false} BodyIsClosed(body: seq<Elem>, parent: Option<string>, full: string)
    requires DistinctNames(BodyRows(body, parent)) && full in NamesOf(BodyRows(body, parent))
    ensures ClosedInside(BodyRows(body, parent), full, InsideBody(body, parent, full))
    decreases body, 1
  {
    if body != [] {
      var init, last := body[..|body| - 1], body[|body| - 1];
      var a, b := BodyRows(init, parent), ElemRows(last, parent);
      NamesAppend(a, b);
      DistinctParts(a, b);
      BodyRowsWithin(init, parent);
      ElemRowsWithin(last, parent);
      BodyIsLonger(init, parent);
      ElemIsLonger(last, parent);
      InsideBodyIsPart(init, parent, full);
      InsideElemIsPart(last, parent, full);
      if full in NamesOf(a) {
        BodyIsClosed(init, parent, full);
        ClosedBeside(a, b, InsideBody(init, parent, full), parent, full);
        assert InsideBody(init, parent, full) + [] == InsideBody(init, parent, full);
      } else {
        ElemIsClosed(last, parent, full);
        ClosedBeside(b, a, InsideElem(last, parent, full), parent, full);
        assert [] + InsideElem(last, parent, full) == InsideElem(last, parent, full);
      }
    }
  }

  /** What a document's table has under an instance, the document has inside it. */
  lemma {:induction false} UnderIsEnclosed(body: seq<Elem>, rows: map<string, Row>, full: string, x: string)
    requires Fresh(map[], BodyRows(body, None)) && rows == Table(map[], BodyRows(body, None)) && Parented(rows)
    requires full in rows && x in rows && IsUnder(rows, x, full) && x != full
    ensures x in NamesOf(InsideBody(body, None, full))
    decreases |x|
  {
    var named, inside := BodyRows(body, None), InsideBody(body, None, full);
    TableKeys(map[], named);
    var i :| 0 <= i < |named| && named[i].fullName == x;
    TableAt(map[], named, i);
    var f :| 0 <= f < |named| && named[f].fullName == full;
    NameAt(named, f);
    BodyIsClosed(body, None, full);
    var p := rows[x].parent.value;
    if p != full { UnderIsEnclosed(body, rows, full, p); }
    assert ParentInside(named[i].row, full, inside);
  }

  /** The rows inside an instance are the rows of its body. */
  lemma {:induction false} InsideElemIsBody(e: Elem, parent: Option<string>, full: string) returns (body: seq<Elem>)
    requires InsideElem(e, parent, full) != [] && DistinctNames(ElemRows(e, parent))
    ensures InsideElem(e, parent, full) == BodyRows(body, Some(full))
    decreases e, 0
  {
    if e.kind.Instance? {
      var own := Qualify(parent, e.name);
      DistinctParts(BodyRows(e.body, Some(own)), [Named(own, Row(parent, PublicMetrics(DirectMetrics(e.body))))]);
      if own == full { body := e.body; } else { body := InsideBodyIsBody(e.body, Some(own), full); }
    } else {
      body := InsideBodyIsBody(e.body, parent, full);
    }
  }

  lemma {:induction false} InsideBodyIsBody(body: seq<Elem>, parent: Option<string>, full: string) returns (inner: seq<Elem>)
    requires InsideBody(body, parent, full) != [] && DistinctNames(BodyRows(body, parent))
    ensures InsideBody(body, parent, full) == BodyRows(inner, Some(full))
    decreases body, 1
  {
    var init, last := body[..|body| - 1], body[|body| - 1];
    var a, b := BodyRows(init, parent), ElemRows(last, parent);
    DistinctParts(a, b);
    InsideBodyIsPart(init, parent, full);
    InsideElemIsPart(last, parent, full);
    if InsideBody(init, parent, full) != [] {
      assert InsideBody(init, parent, full) + [] == InsideBody(init, parent, full);
      inner := InsideBodyIsBody(init, parent, full);
    } else {
      assert [] + InsideElem(last, parent, full) == InsideElem(last, parent, full);
      inner := InsideElemIsBody(last, parent, full);
    }
  }

  lemma {:induction false} InsideElemIsMember(e: Elem, parent: Option<string>, full: string)
    ensures forall n :: n in InsideElem(e, parent, full) ==> n in ElemRows(e, parent)
    decreases e, 0
  {
    if e.Scope? {
      InsideBodyIsMember(e.body, if e.kind.Instance? then Some(Qualify(parent, e.name)) else parent, full);
    }
  }

  lemma {:induction false} InsideBodyIsMember(body: seq<Elem>, parent: Option<string>, full: string)
    ensures forall n :: n in InsideBody(body, parent, full) ==> n in BodyRows(body, parent)
    decreases body, 1
  {
    if body != [] {
      InsideBodyIsMember(body[..|body| - 1], parent, full);
      InsideElemIsMember(body[|body| - 1], parent, full);
    }
  }

  lemma RowsAreTable(body: seq<Elem>, rows: map<string, Row>, n: Named)
    requires Fresh(map[], BodyRows(body, None)) && rows == Table(map[], BodyRows(body, None)) && n in BodyRows(body, None)
    ensures n.fullName in rows && rows[n.fullName] == n.row
  {
    var i :| 0 <= i < |BodyRows(body, None)| && BodyRows(body, None)[i] == n;
    TableAt(map[], BodyRows(body, None), i);
  }

  /** What a document has inside an instance, its table has under the instance. */
  lemma InsideIsUnder(body: seq<Elem>, rows: map<string, Row>, full: string, x: string)
    requires Fresh(map[], BodyRows(body, None)) && rows == Table(map[], BodyRows(body, None)) && Parented(rows)
    requires full in rows && x in NamesOf(InsideBody(body, None, full))
    ensures x in rows && IsUnder(rows, x, full)
  {
    var inside := InsideBody(body, None, full);
    var inner := InsideBodyIsBody(body, None, full);
    var i :| 0 <= i < |inside| && inside[i].fullName == x;
    InsideBodyIsMember(body, None, full);
    forall n | n in inside ensures n.fullName in rows && rows[n.fullName] == n.row { RowsAreTable(body, rows, n); }
    assert inside[i] in inside;
    EnclosedIsUnder(rows, inner, full, i);
  }

  /** The subtree of an instance is the instance and exactly what the document encloses in it. */
  lemma SubtreeIsEnclosed(body: seq<Elem>, rows: map<string, Row>, full: string, x: string)
    requires Fresh(map[], BodyRows(body, None)) && rows == Table(map[], BodyRows(body, None)) && Parented(rows) && full in rows
    ensures x in rows && IsUnder(rows, x, full) <==> x == full || x in NamesOf(InsideBody(body, None, full))
  {
    if x in NamesOf(InsideBody(body, None, full)) {
      InsideIsUnder(body, rows, full, x);
    } else if x in rows && IsUnder(rows, x, full) && x != full {
      UnderIsEnclosed(body, rows, full, x);
    }
  }

  /**
   From the document to the expansion: if the document parses, expanding an instance of it lists that
   instance and exactly the instances the document encloses in it, each once, in preorder with
   siblings by name.
   */
  method ExpandDocument(body: seq<Elem>, root: string) returns (r: Result<Option<seq<string>>, Error>)
    ensures r.Ok? <==> BodyGood(body) && Fresh(map[], BodyRows(body, None)) && BodyRows(body, None) != []
    ensures r.Ok? ==> (r.value.Some? <==> root in NamesOf(BodyRows(body, None)))
    ensures r.Ok? && r.value.Some? ==>
              forall x :: multiset(r.value.value)[x] == if x == root || x in NamesOf(InsideBody(body, None, root)) then 1 else 0
    ensures r.Ok? && r.value.Some? ==> InPreorder(Table(map[], BodyRows(body, None)), r.value.value)
  {
    ParseComputesRows(body);
    TableKeys(map[], BodyRows(body, None));
    TableIsEmpty(BodyRows(body, None));
    var parsed := ParseXml(BodyEvents(body));
    if parsed.Err? { return Err(parsed.error); }
    var rows := parsed.value;
    DocumentIsParented(body);
    var children := BuildChildren(rows);
    ghost var bound := BoundExists(rows.Keys);
    var expanded := ExpandXmlInstances(rows, children, root, true, bound);
    if expanded.Some? {
      forall x ensures multiset(expanded.value)[x] == if x == root || x in NamesOf(InsideBody(body, None, root)) then 1 else 0 {
        PreorderIsSubtree(rows, children, bound, root, x);
        SubtreeIsEnclosed(body, rows, root, x);
      }
      PreorderIsOrdered(rows, children, bound, root);
    }
    r := Ok(expanded);
  }

  lemma TableIsEmpty(named: seq<Named>)
    ensures Table(map[], named) == map[] <==> named == []
  {
    if named != [] { assert named[|named| - 1].fullName in Table(map[], named); }
  }
}
