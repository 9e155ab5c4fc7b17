// Foreground command lines of the shell: the three-level list parse_line
// builds, and the loop of run_list that walks it.

module Shell {
  datatype Token = Word(text: string) | Sequence | AndIf | OrIf | Bar

  type Command = seq<string>
  datatype Pipeline = Pipeline(commands: seq<Command>, nextIsOr: bool)
  type Conditional = seq<Pipeline>

  // No level is ever empty; a flag is set only in front of another pipeline.
  predicate PipelineOk(p: Pipeline) { p.commands != [] }

  predicate ConditionalOk(c: Conditional) {
    c != [] && (forall i | 0 <= i < |c| :: PipelineOk(c[i])) && !c[|c| - 1].nextIsOr
  }

  predicate ListOk(l: seq<Conditional>) { l != [] && forall i | 0 <= i < |l| :: ConditionalOk(l[i]) }

  // ---- The words and operators of a list ----

  function CommandTokens(c: Command): seq<Token> { seq(|c|, i requires 0 <= i < |c| => Word(c[i])) }

  function PipelineTokens(cs: seq<Command>): seq<Token>
    requires cs != []
  {
    var last := CommandTokens(cs[|cs| - 1]);
    if |cs| == 1 then last else PipelineTokens(cs[..|cs| - 1]) + [Bar] + last
  }

  function ConditionalTokens(c: Conditional): seq<Token>
    requires c != [] && forall i | 0 <= i < |c| :: PipelineOk(c[i])
  {
    assert PipelineOk(c[|c| - 1]);
    var last := PipelineTokens(c[|c| - 1].commands);
    if |c| == 1 then last
    else ConditionalTokens(c[..|c| - 1]) + [if c[|c| - 2].nextIsOr then OrIf else AndIf] + last
  }

  function ListTokens(l: seq<Conditional>): seq<Token>
    requires ListOk(l)
  {
    var last := ConditionalTokens(l[|l| - 1]);
    if |l| == 1 then last else ListTokens(l[..|l| - 1]) + [Sequence] + last
  }

  // ---- Joining lists ----

  // Two pipelines joined by a bar.
  lemma {:induction false} BarJoins(a: seq<Command>, b: seq<Command>)
    requires a != [] && b != []
    ensures PipelineTokens(a + b) == PipelineTokens(a) + [Bar] + PipelineTokens(b)
    decreases |b|
  {
    var n := |b| - 1;
    assert (a + b)[..|a + b| - 1] == a + b[..n];
    if n == 0 {
      assert a + b[..0] == a;
    } else {
      BarJoins(a, b[..n]);
    }
  }

  // Two and-or lists joined by the connective behind the first one.
  lemma {:induction false} ConnectiveJoins(a: Conditional, b: Conditional)
    requires a != [] && b != [] && (forall i | 0 <= i < |a| :: PipelineOk(a[i])) && (forall i | 0 <= i < |b| :: PipelineOk(b[i]))
    ensures ConditionalTokens(a + b)
            == ConditionalTokens(a) + [if a[|a| - 1].nextIsOr then OrIf else AndIf] + ConditionalTokens(b)
    decreases |b|
  {
    hide PipelineTokens;
    var n := |b| - 1;
    assert (a + b)[..|a + b| - 1] == a + b[..n];
    if n == 0 {
      assert a + b[..0] == a;
    } else {
      ConnectiveJoins(a, b[..n]);
      assert (a + b)[|a + b| - 2] == b[n - 1];
    }
  }

  // Two lists joined by a semicolon.
  lemma {:induction false} SequenceJoins(a: seq<Conditional>, b: seq<Conditional>)
    requires ListOk(a) && ListOk(b)
    ensures ListOk(a + b) && ListTokens(a + b) == ListTokens(a) + [Sequence] + ListTokens(b)
    decreases |b|
  {
    hide ConditionalTokens, PipelineTokens, ConditionalOk;
    var n := |b| - 1;
    assert (a + b)[..|a + b| - 1] == a + b[..n] && (a + b)[|a + b| - 1] == b[n];
    if n == 0 {
      assert a + b[..0] == a;
    } else {
      assert ListOk(b[..n]);
      SequenceJoins(a, b[..n]);
    }
  }

  // A list of one command is its words.
  lemma WordsOnly(c: Command)
    ensures var tokens := ListTokens([[Pipeline([c], false)]]);
            |tokens| == |c| && forall i | 0 <= i < |c| :: tokens[i] == Word(c[i])
  {
  }

  // ---- Building the list ----

  // Changing the last conditional only changes what it contributes.
  lemma LastConditional(l: seq<Conditional>, c: Conditional, more: seq<Token>)
    requires ListOk(l) && ConditionalOk(c) && ConditionalTokens(c) == ConditionalTokens(l[|l| - 1]) + more
    ensures ListOk(l[|l| - 1 := c]) && ListTokens(l[|l| - 1 := c]) == ListTokens(l) + more
  {
    assert l[|l| - 1 := c][..|l| - 1] == l[..|l| - 1];
  }

  lemma LastPipeline(c: Conditional, cs: seq<Command>, more: seq<Token>)
    requires ConditionalOk(c) && cs != [] && PipelineTokens(cs) == PipelineTokens(c[|c| - 1].commands) + more
    ensures var c' := c[|c| - 1 := Pipeline(cs, false)];
            ConditionalOk(c') && ConditionalTokens(c') == ConditionalTokens(c) + more
  {
    assert c[|c| - 1 := Pipeline(cs, false)][..|c| - 1] == c[..|c| - 1];
  }

  lemma WordTokens(cs: seq<Command>, w: string)
    requires cs != []
    ensures PipelineTokens(cs[|cs| - 1 := cs[|cs| - 1] + [w]]) == PipelineTokens(cs) + [Word(w)]
  {
    var last := cs[|cs| - 1];
    assert cs[|cs| - 1 := last + [w]][..|cs| - 1] == cs[..|cs| - 1];
    assert CommandTokens(last + [w]) == CommandTokens(last) + [Word(w)];
  }

  lemma BarTokens(cs: seq<Command>)
    requires cs != []
    ensures PipelineTokens(cs + [[]]) == PipelineTokens(cs) + [Bar]
  {
    assert (cs + [[]])[..|cs|] == cs;
  }

  // The flag does not belong to the tokens of its own pipeline.
  lemma ConnectiveTokens(c: Conditional, isOr: bool)
    requires ConditionalOk(c)
    ensures var c' := c[|c| - 1 := c[|c| - 1].(nextIsOr := isOr)] + [Pipeline([[]], false)];
            ConditionalOk(c') && ConditionalTokens(c') == ConditionalTokens(c) + [if isOr then OrIf else AndIf]
  {
    var d := c[|c| - 1 := c[|c| - 1].(nextIsOr := isOr)];
    assert (d + [Pipeline([[]], false)])[..|c|] == d;
    assert d[..|c| - 1] == c[..|c| - 1];
    assert ConditionalTokens(d) == ConditionalTokens(c);
  }

  lemma SequenceTokens(l: seq<Conditional>)
    requires ListOk(l)
    ensures ListOk(l + [[Pipeline([[]], false)]])
    ensures ListTokens(l + [[Pipeline([[]], false)]]) == ListTokens(l) + [Sequence]
  {
    var new_ := [Pipeline([[]], false)];
    assert (l + [new_])[..|l|] == l;
    assert ConditionalTokens(new_) == [];
  }

  // The list after one more token.
  function AddToken(l: seq<Conditional>, t: Token): seq<Conditional>
    requires ListOk(l)
  {
    var c := l[|l| - 1];
    assert ConditionalOk(c) && PipelineOk(c[|c| - 1]);
    var cs := c[|c| - 1].commands;
    match t
    case Word(w) => l[|l| - 1 := c[|c| - 1 := Pipeline(cs[|cs| - 1 := cs[|cs| - 1] + [w]], false)]]
    case Bar => l[|l| - 1 := c[|c| - 1 := Pipeline(cs + [[]], false)]]
    case AndIf => l[|l| - 1 := c[|c| - 1 := Pipeline(cs, false)] + [Pipeline([[]], false)]]
    case OrIf => l[|l| - 1 := c[|c| - 1 := Pipeline(cs, true)] + [Pipeline([[]], false)]]
    case Sequence => l + [[Pipeline([[]], false)]]
  }

  lemma AddTokenAdds(l: seq<Conditional>, t: Token)
    requires ListOk(l)
    ensures ListOk(AddToken(l, t)) && ListTokens(AddToken(l, t)) == ListTokens(l) + [t]
  {
    hide ListTokens, ConditionalTokens, PipelineTokens;
    var c := l[|l| - 1];
    assert ConditionalOk(c) && PipelineOk(c[|c| - 1]);
    var cs := c[|c| - 1].commands;
    match t {
      case Word(w) =>
        var cs' := cs[|cs| - 1 := cs[|cs| - 1] + [w]];
        WordTokens(cs, w);
        LastPipeline(c, cs', [t]);
        LastConditional(l, c[|c| - 1 := Pipeline(cs', false)], [t]);
      case Bar =>
        BarTokens(cs);
        LastPipeline(c, cs + [[]], [t]);
        LastConditional(l, c[|c| - 1 := Pipeline(cs + [[]], false)], [t]);
      case AndIf =>
        ConnectiveTokens(c, false);
        LastConditional(l, c[|c| - 1 := Pipeline(cs, false)] + [Pipeline([[]], false)], [t]);
      case OrIf =>
        ConnectiveTokens(c, true);
        LastConditional(l, c[|c| - 1 := Pipeline(cs, true)] + [Pipeline([[]], false)], [t]);
      case Sequence =>
        SequenceTokens(l);
    }
  }

  const NOTHING: seq<Conditional> := [[Pipeline([[]], false)]]

  // Every list but the empty one comes from a shorter one by one token.
  lemma Unadd(l: seq<Conditional>) returns (m: seq<Conditional>, t: Token)
    requires ListOk(l) && l != NOTHING
    ensures ListOk(m) && AddToken(m, t) == l
  {
    var c := l[|l| - 1];
    assert ConditionalOk(c) && PipelineOk(c[|c| - 1]);
    var cs := c[|c| - 1].commands;
    hide AddToken;
    if cs[|cs| - 1] != [] {
      m, t := UnaddWord(l, c, cs);
    } else if |cs| > 1 {
      m, t := UnaddBar(l, c, cs);
    } else if |c| > 1 {
      assert cs == [[]];
      m, t := UnaddConnective(l, c);
    } else {
      assert cs == [[]] && c == [Pipeline([[]], false)];
      assert |l| == 1 ==> l == NOTHING;
      m, t := l[..|l| - 1], Sequence;
      UnaddSequence(l);
    }
  }

  // l with c as its last conditional, c with `cs` as its last pipeline.
  predicate EndsIn(l: seq<Conditional>, c: Conditional, cs: seq<Command>) {
    l != [] && c == l[|l| - 1] && c != [] && c[|c| - 1] == Pipeline(cs, false) && cs != []
  }

  // The same with another last pipeline.
  function Instead(l: seq<Conditional>, c: Conditional, p: Pipeline): (m: seq<Conditional>)
    requires l != [] && c != []
  {
    l[|l| - 1 := c[|c| - 1 := p]]
  }

  lemma InsteadOk(l: seq<Conditional>, c: Conditional, cs: seq<Command>, p: Pipeline)
    requires ListOk(l) && EndsIn(l, c, cs) && PipelineOk(p) && !p.nextIsOr
    ensures var m := Instead(l, c, p);
            && ListOk(m) && EndsIn(m, c[|c| - 1 := p], p.commands)
            && Instead(m, c[|c| - 1 := p], Pipeline(cs, false)) == l
  {
    var c' := c[|c| - 1 := p];
    assert ConditionalOk(c) && ConditionalOk(c');
    assert c'[|c'| - 1 := Pipeline(cs, false)] == c;
    var m := Instead(l, c, p);
    assert m[|m| - 1 := c] == l;
  }

  lemma UnaddWord(l: seq<Conditional>, c: Conditional, cs: seq<Command>) returns (m: seq<Conditional>, t: Token)
    requires ListOk(l) && EndsIn(l, c, cs) && cs[|cs| - 1] != []
    ensures ListOk(m) && AddToken(m, t) == l
  {
    var x := cs[|cs| - 1];
    var cs' := cs[|cs| - 1 := x[..|x| - 1]];
    m, t := Instead(l, c, Pipeline(cs', false)), Word(x[|x| - 1]);
    InsteadOk(l, c, cs, Pipeline(cs', false));
    assert x[..|x| - 1] + [t.text] == x;
    assert cs'[|cs'| - 1 := x] == cs;
  }

  lemma UnaddBar(l: seq<Conditional>, c: Conditional, cs: seq<Command>) returns (m: seq<Conditional>, t: Token)
    requires ListOk(l) && EndsIn(l, c, cs) && |cs| > 1 && cs[|cs| - 1] == []
    ensures ListOk(m) && AddToken(m, t) == l
  {
    m, t := Instead(l, c, Pipeline(cs[..|cs| - 1], false)), Bar;
    InsteadOk(l, c, cs, Pipeline(cs[..|cs| - 1], false));
    assert cs[..|cs| - 1] + [[]] == cs;
  }

  lemma UnaddConnective(l: seq<Conditional>, c: Conditional) returns (m: seq<Conditional>, t: Token)
    requires ListOk(l) && EndsIn(l, c, [[]]) && |c| > 1
    ensures ListOk(m) && AddToken(m, t) == l
  {
    assert ConditionalOk(c);
    var d, k := c[..|c| - 1], |c| - 2;
    var p := c[k];
    assert PipelineOk(p);
    var d' := d[k := Pipeline(p.commands, false)];
    m, t := l[|l| - 1 := d'], if p.nextIsOr then OrIf else AndIf;
    assert ConditionalOk(d');
    assert d'[k := p] + [Pipeline([[]], false)] == c;
    assert m[|m| - 1 := c] == l;
  }

  lemma UnaddSequence(l: seq<Conditional>)
    requires ListOk(l) && |l| > 1 && l[|l| - 1] == [Pipeline([[]], false)]
    ensures ListOk(l[..|l| - 1]) && AddToken(l[..|l| - 1], Sequence) == l
  {
    var m := l[..|l| - 1];
    assert m + [[Pipeline([[]], false)]] == l;
  }

  lemma NothingTokens(l: seq<Conditional>)
    requires ListOk(l)
    ensures l == NOTHING <==> ListTokens(l) == []
  {
    if l != NOTHING {
      var m, t := Unadd(l);
      AddTokenAdds(m, t);
    }
  }

  // A line has one list only.
  lemma {:induction false} OneReading(l: seq<Conditional>, m: seq<Conditional>)
    requires ListOk(l) && ListOk(m) && ListTokens(l) == ListTokens(m)
    ensures l == m
    decreases |ListTokens(l)|
  {
    NothingTokens(l);
    NothingTokens(m);
    if l != NOTHING {
      var l', t := Unadd(l);
      AddTokenAdds(l', t);
      var m', u := Unadd(m);
      AddTokenAdds(m', u);
      SameFront(ListTokens(l'), t, ListTokens(m'), u);
      OneReading(l', m');
    }
  }

  lemma SameFront(a: seq<Token>, t: Token, b: seq<Token>, u: Token)
    requires a + [t] == b + [u]
    ensures a == b && t == u
  {
    assert (a + [t])[|a|] == t && |a| == |b|;
    assert (a + [t])[..|a|] == a && (b + [u])[..|b|] == b;
  }

  class CommandList {
    // the last element at each level is the one curr_* points to
    var conditionals: seq<Conditional>

    ghost predicate Valid()
      reads this
    {
      ListOk(conditionals)
    }

    constructor ()
      ensures Valid() && conditionals == NOTHING
    {
      conditionals := [[Pipeline([[]], false)]];
    }

    method AddWord(w: string)
      requires Valid()
      modifies this
      ensures Valid() && conditionals == AddToken(old(conditionals), Word(w))
    {
      AddTokenAdds(conditionals, Word(w));
      var n := |conditionals| - 1;
      var c := conditionals[n];
      var cs := c[|c| - 1].commands;
      conditionals := conditionals[n := c[|c| - 1 := Pipeline(cs[|cs| - 1 := cs[|cs| - 1] + [w]], false)]];
    }

    method AddBar()
      requires Valid()
      modifies this
      ensures Valid() && conditionals == AddToken(old(conditionals), Bar)
    {
      AddTokenAdds(conditionals, Bar);
      var n := |conditionals| - 1;
      var c := conditionals[n];
      var cs := c[|c| - 1].commands;
      conditionals := conditionals[n := c[|c| - 1 := Pipeline(cs + [[]], false)]];
    }

    method AddConnective(isOr: bool)
      requires Valid()
      modifies this
      ensures Valid() && conditionals == AddToken(old(conditionals), if isOr then OrIf else AndIf)
    {
      AddTokenAdds(conditionals, if isOr then OrIf else AndIf);
      var n := |conditionals| - 1;
      var c := conditionals[n];
      var d := c[|c| - 1 := c[|c| - 1].(nextIsOr := isOr)];
      conditionals := conditionals[n := d + [Pipeline([[]], false)]];
    }

    method AddSequence()
      requires Valid()
      modifies this
      ensures Valid() && conditionals == AddToken(old(conditionals), Sequence)
    {
      AddTokenAdds(conditionals, Sequence);
      conditionals := conditionals + [[Pipeline([[]], false)]];
    }
  }

  // parse_line: the list whose words and operators are those of the line.
  method ParseLine(tokens: seq<Token>) returns (l: seq<Conditional>)
    ensures ListOk(l) && ListTokens(l) == tokens
  {
    hide ListTokens, AddToken;
    var list := new CommandList();
    NothingTokens(list.conditionals);
    for i := 0 to |tokens|
      invariant fresh(list) && list.Valid() && ListTokens(list.conditionals) == tokens[..i]
    {
      AddTokenAdds(list.conditionals, tokens[i]);
      match tokens[i] {
        case Word(w) => list.AddWord(w);
        case Sequence => list.AddSequence();
        case AndIf => list.AddConnective(false);
        case OrIf => list.AddConnective(true);
        case Bar => list.AddBar();
      }
      assert tokens[..i + 1] == tokens[..i] + [tokens[i]];
    }
    assert tokens[..|tokens|] == tokens;
    l := list.conditionals;
  }

  // ---- What a list means ----

  // A process is started, or the shell waits for the last one of a pipeline.
  datatype Event = Started(command: Command) | Waited

  // What has happened, and whether the last pipeline waited for succeeded.
  datatype Outcome = Outcome(events: seq<Event>, ok: bool)

  // Exit status of the pipeline just waited for, given all that happened.
  type Exits = seq<Event> -> bool

  function Starts(cs: seq<Command>): seq<Event> {
    seq(|cs|, i requires 0 <= i < |cs| => Started(cs[i]))
  }

  // The commands of a pipeline up to the first that is empty; an empty one
  // in front is skipped.
  function UpToEmpty(cs: seq<Command>): seq<Command> {
    if cs == [] || cs[0] == [] then [] else [cs[0]] + UpToEmpty(cs[1..])
  }

  function Runnable(cs: seq<Command>): seq<Command>
    requires cs != []
  {
    (if cs[0] == [] then [] else [cs[0]]) + UpToEmpty(cs[1..])
  }

  function RunPipeline(p: Pipeline, s: Outcome, exits: Exits): Outcome
    requires PipelineOk(p)
  {
    var run := Runnable(p.commands);
    if run == [] then s
    else
      var events := s.events + Starts(run) + [Waited];
      Outcome(events, exits(events))
  }

  // An and-or list read with left associativity.
  datatype AndOr = Just(p: Pipeline) | And(left: AndOr, p: Pipeline) | Or(left: AndOr, p: Pipeline)

  function TreeOf(c: Conditional): AndOr
    requires c != []
  {
    var n := |c| - 1;
    if n == 0 then Just(c[0])
    else if c[n - 1].nextIsOr then Or(TreeOf(c[..n]), c[n])
    else And(TreeOf(c[..n]), c[n])
  }

  predicate TreeOk(t: AndOr) {
    match t
    case Just(p) => PipelineOk(p)
    case And(left, p) => TreeOk(left) && PipelineOk(p)
    case Or(left, p) => TreeOk(left) && PipelineOk(p)
  }

  function Eval(t: AndOr, s: Outcome, exits: Exits): Outcome
    requires TreeOk(t)
  {
    match t
    case Just(p) => RunPipeline(p, s, exits)
    case And(left, p) =>
      var l := Eval(left, s, exits);
      if l.ok then RunPipeline(p, l, exits) else l
    case Or(left, p) =>
      var l := Eval(left, s, exits);
      if l.ok then l else RunPipeline(p, l, exits)
  }

  lemma {:induction false} TreeIsOk(c: Conditional)
    requires c != [] && forall i | 0 <= i < |c| :: PipelineOk(c[i])
    ensures TreeOk(TreeOf(c))
  {
    if |c| > 1 {
      TreeIsOk(c[..|c| - 1]);
    }
  }

  // Each conditional starts afresh, as if the one before had succeeded.
  function EvalConditional(c: Conditional, events: seq<Event>, exits: Exits): Outcome
    requires c != [] && forall i | 0 <= i < |c| :: PipelineOk(c[i])
  {
    TreeIsOk(c);
    Eval(TreeOf(c), Outcome(events, true), exits)
  }

  function EvalList(l: seq<Conditional>, exits: Exits): seq<Event>
    requires forall i | 0 <= i < |l| :: ConditionalOk(l[i])
  {
    if l == [] then []
    else
      assert ConditionalOk(l[|l| - 1]);
      EvalConditional(l[|l| - 1], EvalList(l[..|l| - 1], exits), exits).events
  }

  // ---- The same pipeline by pipeline ----

  // A pipeline that is run starts its commands up to the first empty one,
  // leaving out an empty one in front, and then waits; with nothing to start
  // it does not wait.
  ghost predicate RunsFirst(cs: seq<Command>, k: nat, a: Outcome, b: Outcome, exits: Exits) {
    && 0 < k <= |cs| && (forall j | 0 < j < k :: cs[j] != []) && (k < |cs| ==> cs[k] == [])
    && var first := if cs[0] == [] then 1 else 0;
       if first == k then b == a
       else
         && |b.events| == |a.events| + (k - first) + 1 && b.events[..|a.events|] == a.events
         && (forall j | first <= j < k :: b.events[|a.events| - first + j] == Started(cs[j]))
         && b.events[|b.events| - 1] == Waited && b.ok == exits(b.events)
  }

  // Pipeline i is run when it is the first one, after && when the last status
  // is a success, and after || when it is not.
  ghost predicate StepsOn(c: Conditional, i: nat, a: Outcome, b: Outcome, exits: Exits)
    requires i < |c|
  {
    if i == 0 || (if c[i - 1].nextIsOr then !a.ok else a.ok) then exists k :: RunsFirst(c[i].commands, k, a, b, exits)
    else b == a
  }

  // states[i] is the outcome before pipeline i.
  ghost predicate InTurn(c: Conditional, events: seq<Event>, exits: Exits, states: seq<Outcome>) {
    && |states| == |c| + 1 && states[0] == Outcome(events, true)
    && forall i | 0 <= i < |c| :: StepsOn(c, i, states[i], states[i + 1], exits)
  }

  lemma PipelineRuns(p: Pipeline, a: Outcome, exits: Exits)
    requires PipelineOk(p)
    ensures exists k :: RunsFirst(p.commands, k, a, RunPipeline(p, a, exits), exits)
  {
    var cs := p.commands;
    var n := |UpToEmpty(cs[1..])|;
    UpToEmptyEnds(cs[1..]);
    forall j | 0 < j < n + 1
      ensures cs[j] != []
    {
      assert cs[j] == cs[1..][j - 1];
    }
    assert n + 1 < |cs| ==> cs[n + 1] == cs[1..][n];
    assert RunsFirst(cs, n + 1, a, RunPipeline(p, a, exits), exits);
  }

  lemma {:induction false} UpToEmptyEnds(cs: seq<Command>)
    ensures var n := |UpToEmpty(cs)|;
            && n <= |cs| && UpToEmpty(cs) == cs[..n] && (forall j | 0 <= j < n :: cs[j] != []) && (n < |cs| ==> cs[n] == [])
  {
    if cs != [] && cs[0] != [] { UpToEmptyEnds(cs[1..]); }
  }

  // The evaluation of an and-or list takes the pipelines in turn.
  lemma {:induction false} ConditionalInTurn(c: Conditional, events: seq<Event>, exits: Exits) returns (states: seq<Outcome>)
    requires c != [] && forall i | 0 <= i < |c| :: PipelineOk(c[i])
    ensures InTurn(c, events, exits, states) && states[|c|] == EvalConditional(c, events, exits)
    decreases |c|
  {
    hide RunPipeline, RunsFirst;
    var n := |c| - 1;
    assert PipelineOk(c[n]);
    TreeIsOk(c);
    if n == 0 {
      states := [Outcome(events, true), EvalConditional(c, events, exits)];
      PipelineRuns(c[0], states[0], exits);
    } else {
      var before := ConditionalInTurn(c[..n], events, exits);
      PipelineRuns(c[n], before[n], exits);
      states := before + [EvalConditional(c, events, exits)];
      forall i | 0 <= i < |c|
        ensures StepsOn(c, i, states[i], states[i + 1], exits)
      {
        if i < n {
          assert StepsOn(c[..n], i, before[i], before[i + 1], exits);
        }
      }
    }
  }

  // marks[i] is what has happened before conditional i.
  ghost predicate OneByOne(l: seq<Conditional>, exits: Exits, marks: seq<seq<Event>>) {
    && |marks| == |l| + 1 && marks[0] == []
    && forall i | 0 <= i < |l| :: EndsWith(l[i], marks[i], exits, marks[i + 1])
  }

  ghost predicate EndsWith(c: Conditional, before: seq<Event>, exits: Exits, after: seq<Event>) {
    exists states: seq<Outcome> :: InTurn(c, before, exits, states) && states[|c|].events == after
  }

  // The evaluation of a list takes the conditionals one by one.
  lemma {:induction false} ListOneByOne(l: seq<Conditional>, exits: Exits) returns (marks: seq<seq<Event>>)
    requires forall i | 0 <= i < |l| :: ConditionalOk(l[i])
    ensures OneByOne(l, exits, marks) && marks[|l|] == EvalList(l, exits)
    decreases |l|
  {
    hide InTurn, EvalConditional;
    if l == [] {
      marks := [[]];
    } else {
      var n := |l| - 1;
      assert ConditionalOk(l[n]);
      var before := ListOneByOne(l[..n], exits);
      var states := ConditionalInTurn(l[n], before[n], exits);
      marks := before + [EvalList(l, exits)];
      forall i | 0 <= i < |l|
        ensures EndsWith(l[i], marks[i], exits, marks[i + 1])
      {
        if i < n {
          assert EndsWith(l[..n][i], before[i], exits, before[i + 1]);
        }
      }
    }
  }

  // ---- The loop over the list ----

  // Between pipelines: everything before is evaluated, and `run` says whether
  // the pipeline the loop stands on is to be started.
  ghost predicate Between(l: seq<Conditional>, exits: Exits, ci: nat, pi: nat, run: bool, s: Outcome)
    requires ListOk(l)
  {
    && ci <= |l|
    && (ci == |l| ==> s.events == EvalList(l, exits))
    && (ci < |l| ==>
          && ConditionalOk(l[ci]) && pi < |l[ci]|
          && s == Partial(l, exits, ci, pi) && run == Wanted(l[ci], pi, s.ok))
  }

  // The outcome of the first pi pipelines of conditional ci.
  ghost function Partial(l: seq<Conditional>, exits: Exits, ci: nat, pi: nat): Outcome
    requires ListOk(l) && ci < |l| && ConditionalOk(l[ci]) && pi <= |l[ci]|
  {
    if pi == 0 then Outcome(EvalList(l[..ci], exits), true)
    else EvalConditional(l[ci][..pi], EvalList(l[..ci], exits), exits)
  }

  predicate Wanted(c: Conditional, pi: nat, ok: bool)
    requires pi < |c|
  {
    pi == 0 || ok != c[pi - 1].nextIsOr
  }

  lemma OnePipeline(l: seq<Conditional>, exits: Exits, ci: nat, pi: nat, run: bool, s: Outcome)
    requires ListOk(l) && ci < |l| && Between(l, exits, ci, pi, run, s)
    ensures PipelineOk(l[ci][pi])
    ensures Partial(l, exits, ci, pi + 1) == if run then RunPipeline(l[ci][pi], s, exits) else s
  {
    var c := l[ci];
    assert PipelineOk(c[pi]);
    assert c[..pi + 1][..pi] == c[..pi];
    if pi > 0 {
      TreeIsOk(c[..pi]);
      TreeIsOk(c[..pi + 1]);
      assert c[..pi + 1][pi - 1] == c[pi - 1];
    }
  }

  lemma OneConditional(l: seq<Conditional>, exits: Exits, ci: nat)
    requires ListOk(l) && ci < |l| && ConditionalOk(l[ci])
    ensures Partial(l, exits, ci, |l[ci]|).events == EvalList(l[..ci + 1], exits)
  {
    assert l[..ci + 1][..ci] == l[..ci];
    assert l[ci][..|l[ci]|] == l[ci];
  }

  // The commands of a pipeline started once the first k have been looked at.
  function SoFar(cs: seq<Command>, k: nat): seq<Command>
    requires k <= |cs|
  {
    if k == 0 then [] else (if cs[0] == [] then [] else [cs[0]]) + cs[1..k]
  }

  lemma {:induction false} UpToEmptyIs(cs: seq<Command>, n: nat)
    requires n <= |cs| && (forall i | 0 <= i < n :: cs[i] != []) && (n < |cs| ==> cs[n] == [])
    ensures UpToEmpty(cs) == cs[..n]
  {
    if n > 0 {
      UpToEmptyIs(cs[1..], n - 1);
    }
  }

  lemma PipelineDone(cs: seq<Command>, k: nat)
    requires 0 < k <= |cs| && (forall i | 0 < i < k :: cs[i] != []) && (k < |cs| ==> cs[k] == [])
    ensures Runnable(cs) == SoFar(cs, k)
    ensures Runnable(cs) != [] <==> cs[k - 1] != []
  {
    UpToEmptyIs(cs[1..], k - 1);
    assert cs[1..][..k - 1] == cs[1..k];
    assert k > 1 ==> cs[1..k][k - 2] == cs[k - 1];
    assert k == 1 ==> cs[1..k] == [];
    assert k > 1 ==> Runnable(cs) != [];
  }

  lemma OneCommand(cs: seq<Command>, k: nat)
    requires k < |cs| && (k > 0 ==> cs[k] != [])
    ensures SoFar(cs, k + 1) == SoFar(cs, k) + if cs[k] == [] then [] else [cs[k]]
    ensures Starts(SoFar(cs, k + 1)) == Starts(SoFar(cs, k)) + if cs[k] == [] then [] else [Started(cs[k])]
  {
    if k > 0 {
      assert cs[1..k + 1] == cs[1..k] + [cs[k]];
      assert SoFar(cs, k + 1) == SoFar(cs, k) + [cs[k]];
    } else {
      assert cs[1..1] == [];
    }
    StartsMore(SoFar(cs, k), cs[k]);
  }

  lemma StartsMore(cs: seq<Command>, c: Command)
    ensures Starts(cs + [c]) == Starts(cs) + [Started(c)]
  {
  }

  // Within a pipeline: its first k commands have been looked at.
  ghost predicate Seen(cs: seq<Command>, k: nat, run: bool, events: seq<Event>, s: Outcome) {
    && k <= |cs| && (forall i | 0 < i < k :: cs[i] != [])
    && events == s.events + if run then Starts(SoFar(cs, k)) else []
  }

  // The loop stands on a command it has not looked at.
  ghost predicate Inside(l: seq<Conditional>, exits: Exits, ci: nat, pi: nat, ki: nat, run: bool, events: seq<Event>, s: Outcome)
    requires ListOk(l)
  {
    && Between(l, exits, ci, pi, run, s)
    && (ci == |l| ==> events == s.events)
    && (ci < |l| ==>
          && pi < |l[ci]| && ki < |l[ci][pi].commands| && (ki > 0 ==> l[ci][pi].commands[ki] != [])
          && Seen(l[ci][pi].commands, ki, run, events, s))
  }

  lemma Look(cs: seq<Command>, k: nat, run: bool, events: seq<Event>, s: Outcome)
    requires k < |cs| && (k > 0 ==> cs[k] != []) && Seen(cs, k, run, events, s)
    ensures Seen(cs, k + 1, run, if run && cs[k] != [] then events + [Started(cs[k])] else events, s)
  {
    OneCommand(cs, k);
  }

  // The end of a pipeline: what it did is what RunPipeline says.
  lemma Ended(p: Pipeline, k: nat, run: bool, events: seq<Event>, s: Outcome, exits: Exits)
    requires 0 < k <= |p.commands| && (k < |p.commands| ==> p.commands[k] == [])
    requires Seen(p.commands, k, run, events, s)
    ensures (if run then RunPipeline(p, s, exits) else s)
            == if run && p.commands[k - 1] != [] then Outcome(events + [Waited], exits(events + [Waited]))
               else Outcome(events, s.ok)
  {
    PipelineDone(p.commands, k);
    assert Starts([]) == [];
  }

  // On to the next pipeline, in this conditional or the next.
  lemma Move(l: seq<Conditional>, exits: Exits, ci: nat, pi: nat, run: bool, s: Outcome, s': Outcome)
    requires ListOk(l) && ci < |l| && Between(l, exits, ci, pi, run, s)
    requires s' == if run then RunPipeline(l[ci][pi], s, exits) else s
    ensures pi + 1 < |l[ci]| ==> Inside(l, exits, ci, pi + 1, 0, s'.ok != l[ci][pi].nextIsOr, s'.events, s')
    ensures pi + 1 == |l[ci]| ==> Inside(l, exits, ci + 1, 0, 0, true, s'.events, Outcome(s'.events, true))
  {
    OnePipeline(l, exits, ci, pi, run, s);
    if pi + 1 < |l[ci]| {
      assert PipelineOk(l[ci][pi + 1]);
    } else {
      OneConditional(l, exits, ci);
      if ci + 1 < |l| {
        assert ConditionalOk(l[ci + 1]) && PipelineOk(l[ci + 1][0]);
      } else {
        assert l[..ci + 1] == l;
      }
    }
  }

  lemma Outset(l: seq<Conditional>, exits: Exits)
    requires ListOk(l)
    ensures Inside(l, exits, 0, 0, 0, true, [], Outcome([], true))
  {
    assert ConditionalOk(l[0]) && PipelineOk(l[0][0]);
    assert l[..0] == [];
  }

  // run_list on a foreground line starts and waits for exactly what the
  // evaluation prescribes, in its order.
  method RunList(l: seq<Conditional>, exits: Exits) returns (events: seq<Event>)
    requires ListOk(l)
    ensures events == EvalList(l, exits)
  {
    hide Seen, EvalList, RunPipeline, Partial, Wanted;
    var ci, pi, ki := 0, 0, 0;
    var run, status := true, true;
    events := [];
    ghost var s := Outcome([], true);
    Outset(l, exits);
    while ci < |l|
      invariant ci <= |l| && Inside(l, exits, ci, pi, ki, run, events, s) && (ci < |l| ==> status == s.ok)
      decreases |l| - ci, if ci < |l| then |l[ci]| - pi else 0, if ci < |l| then |l[ci][pi].commands| - ki else 0
    {
      var p := l[ci][pi];
      var command := p.commands[ki];
      var started := false;
      Look(p.commands, ki, run, events, s);
      if run && command != [] {
        events := events + [Started(command)];
        started := true;
      }
      ki := ki + 1;
      if ki == |p.commands| || p.commands[ki] == [] {
        Ended(p, ki, run, events, s, exits);
        if started {
          events := events + [Waited];
          status := exits(events);
        }
        Move(l, exits, ci, pi, run, s, Outcome(events, status));
        if status {
          run := !p.nextIsOr;
        } else {
          run := p.nextIsOr;
        }
        pi, ki, s := pi + 1, 0, Outcome(events, status);
        if pi == |l[ci]| {
          ci, pi, run, status := ci + 1, 0, true, true;
          s := Outcome(events, true);
        }
      }
    }
  }

  // Parsing and running a line: the words and operators are those of the
  // line, and what happens is what the list's evaluation says.
  method RunLine(tokens: seq<Token>, exits: Exits) returns (l: seq<Conditional>, events: seq<Event>)
    ensures ListOk(l) && ListTokens(l) == tokens && events == EvalList(l, exits)
    ensures exists marks: seq<seq<Event>> :: OneByOne(l, exits, marks) && marks[|l|] == events
  {
    l := ParseLine(tokens);
    events := RunList(l, exits);
    ghost var marks := ListOneByOne(l, exits);
  }
}
