/** The LALR(1) parser that reads boa.conf and mime.types.

    The interpreter is the table-driven loop of boaLib/y.tab.c; the tables are the
    packed ones it runs on.  The reference it is proved against is the plain grammar

        (NO_ARGS | ONE_ARG STRING | TWO_ARGS STRING STRING)* (MIMETYPE STRING*)*

    given as an abstract syntax (`ConfigFile`) together with its token string. */
module BoaGrammar {

  // ---------------------------------------------------------------- tokens and actions

  /** What the scanner leaves in yylval: the text of the token and, for a statement
      keyword, whether the command it names has an action. */
  datatype Value = Value(text: string, hasAction: bool)

  /** One result of yylex: the token code and the semantic value. */
  datatype Token = Token(code: int, value: Value)

  const STMT_NO_ARGS: int := 258
  const STMT_ONE_ARG: int := 259
  const STMT_TWO_ARGS: int := 260
  const MIMETYPE: int := 261
  const STRING: int := 262

  /** The calls the semantic actions make into the rest of the server. */
  datatype Event =
    | CallNoArgs(command: string)
    | CallOneArg(command: string, arg: string)
    | CallTwoArgs(command: string, second: string, first: string)
    | AddMimeType(extension: string, mimeType: string)

  // ---------------------------------------------------------------- the packed tables

  const YYFINAL: int := 3
  const YYLAST: int := 11
  const YYNTOKENS: int := 9
  const YYMAXUTOK: int := 263
  const YYUNDEFTOK: int := 2
  const YYPACT_NINF: int := -4
  const YYTABLE_NINF: int := -1
  const YYTERROR: int := 1
  const YYEMPTY: int := -2
  const YYEOF: int := 0
  const YYINITDEPTH: int := 200
  const YYMAXDEPTH: int := 10000

  const YYR1: seq<int> := [0, 9, 10, 11, 11, 12, 12, 12, 13, 14, 16, 15, 17, 17, 19, 18, 20, 20, 21]
  const YYR2: seq<int> := [0, 2, 2, 2, 0, 1, 1, 1, 1, 2, 0, 4, 2, 0, 0, 3, 2, 0, 1]
  const YYDEFACT: seq<int> := [4, 0, 13, 1, 8, 0, 0, 3, 5, 6, 7, 2, 9, 10, 14, 12, 0, 17, 11, 15, 18, 16]
  const YYDEFGOTO: seq<int> := [-1, 1, 2, 7, 8, 9, 10, 16, 11, 15, 17, 19, 21]
  const YYPACT: seq<int> := [-4, 3, -3, -4, -4, -2, -1, -4, -4, -4, -4, 1, -4, -4, -4, -4, 2, -4, -4, 4, -4, -4]
  const YYPGOTO: seq<int> := [-4, -4, -4, -4, -4, -4, -4, -4, -4, -4, -4, -4, -4]
  const YYTABLE: seq<int> := [4, 5, 6, 3, 0, 12, 13, 14, 0, 18, 0, 20]
  const YYCHECK: seq<int> := [3, 4, 5, 0, -1, 7, 7, 6, -1, 7, -1, 7]

  /** YYTRANSLATE: the internal number of a token code (for a code that is not the end). */
  function YyTranslate(code: int): (symbol: int)
  {
    if 0 <= code <= YYMAXUTOK
    then (if code == 0 then 0 else if code < 256 then YYUNDEFTOK else if code == 256 then 1 else code - 255)
    else YYUNDEFTOK
  }

  // ---------------------------------------------------------------- one table lookup

  datatype Action = Shift(state: int) | Reduce(rule: int) | SyntaxError

  predicate IsState(state: int) { 0 <= state < 22 }

  /** yydefault */
  function DefaultAction(state: int): Action
    requires IsState(state)
  {
    if YYDEFACT[state] == 0 then SyntaxError else Reduce(YYDEFACT[state])
  }

  /** yybackup after the lookahead has been translated. */
  function LookupAction(state: int, symbol: int): Action
    requires IsState(state)
  {
    var yyn := YYPACT[state] + symbol;
    if yyn < 0 || YYLAST < yyn || YYCHECK[yyn] != symbol then
      DefaultAction(state)
    else if YYTABLE[yyn] <= 0 then
      (if YYTABLE[yyn] == 0 || YYTABLE[yyn] == YYTABLE_NINF then SyntaxError else Reduce(-YYTABLE[yyn]))
    else
      Shift(YYTABLE[yyn])
  }

  /** The state entered after reducing by `rule` with `top` uncovered. */
  function GotoState(top: int, rule: int): int
    requires 1 <= rule < |YYR1|
  {
    var n := YYR1[rule] - YYNTOKENS;
    var index := YYPGOTO[n] + top;
    if 0 <= index <= YYLAST && YYCHECK[index] == top then YYTABLE[index] else YYDEFGOTO[n]
  }

  // ---------------------------------------------------------------- the grammar, as a reference

  datatype Stmt =
    | NoArgs(command: Value)
    | OneArg(command: Value, arg: Value)
    | TwoArgs(command: Value, first: Value, second: Value)

  datatype MimeEntry = MimeEntry(mimeType: Value, extensions: seq<Value>)

  datatype ConfigFile = ConfigFile(stmts: seq<Stmt>, mimes: seq<MimeEntry>)

  function StmtTokens(s: Stmt): seq<Token> {
    match s
    case NoArgs(c) => [Token(STMT_NO_ARGS, c)]
    case OneArg(c, a) => [Token(STMT_ONE_ARG, c), Token(STRING, a)]
    case TwoArgs(c, a, b) => [Token(STMT_TWO_ARGS, c), Token(STRING, a), Token(STRING, b)]
  }

  function StmtEvents(s: Stmt): seq<Event> {
    match s
    case NoArgs(c) => if c.hasAction then [CallNoArgs(c.text)] else []
    case OneArg(c, a) => if c.hasAction then [CallOneArg(c.text, a.text)] else []
    case TwoArgs(c, a, b) => if c.hasAction then [CallTwoArgs(c.text, b.text, a.text)] else []
  }

  function StmtsTokens(ss: seq<Stmt>): seq<Token> {
    if ss == [] then [] else StmtTokens(ss[0]) + StmtsTokens(ss[1..])
  }

  function StmtsEvents(ss: seq<Stmt>): seq<Event> {
    if ss == [] then [] else StmtEvents(ss[0]) + StmtsEvents(ss[1..])
  }

  function ExtTokens(es: seq<Value>): seq<Token> {
    if es == [] then [] else [Token(STRING, es[0])] + ExtTokens(es[1..])
  }

  function ExtEvents(mimeType: string, es: seq<Value>): seq<Event> {
    if es == [] then [] else [AddMimeType(es[0].text, mimeType)] + ExtEvents(mimeType, es[1..])
  }

  function MimesTokens(ms: seq<MimeEntry>): seq<Token> {
    if ms == [] then []
    else [Token(MIMETYPE, ms[0].mimeType)] + ExtTokens(ms[0].extensions) + MimesTokens(ms[1..])
  }

  function MimesEvents(ms: seq<MimeEntry>): seq<Event> {
    if ms == [] then []
    else ExtEvents(ms[0].mimeType.text, ms[0].extensions) + MimesEvents(ms[1..])
  }

  /** The token string of a configuration file. */
  function FileTokens(f: ConfigFile): seq<Token> {
    StmtsTokens(f.stmts) + MimesTokens(f.mimes)
  }

  /** The calls its statements and extensions stand for, in order. */
  function FileEvents(f: ConfigFile): seq<Event> {
    StmtsEvents(f.stmts) + MimesEvents(f.mimes)
  }

  // ---------------------------------------------------------------- a left-to-right recogniser

  /** Where a left-to-right reader of the grammar stands. */
  datatype Mode =
    | InStatements
    | BetweenMimes
    | InExtensions(mimeType: string)
    | NeedArg(command: Value)
    | NeedFirst(command: Value)
    | NeedSecond(command: Value, first: string)

  datatype Outcome = Outcome(accepted: bool, events: seq<Event>)

  function Then(events: seq<Event>, o: Outcome): Outcome {
    Outcome(o.accepted, events + o.events)
  }

  predicate HeadIs(ts: seq<Token>, code: int) { ts != [] && ts[0].code == code }

  function Recognise(m: Mode, ts: seq<Token>): Outcome
    decreases |ts|, if m.InStatements? || m.InExtensions? then 1 else 0
  {
    match m
    case InStatements =>
      if HeadIs(ts, STMT_NO_ARGS) then Then(StmtEvents(NoArgs(ts[0].value)), Recognise(InStatements, ts[1..]))
      else if HeadIs(ts, STMT_ONE_ARG) then Recognise(NeedArg(ts[0].value), ts[1..])
      else if HeadIs(ts, STMT_TWO_ARGS) then Recognise(NeedFirst(ts[0].value), ts[1..])
      else Recognise(BetweenMimes, ts)
    case BetweenMimes =>
      if HeadIs(ts, MIMETYPE) then Recognise(InExtensions(ts[0].value.text), ts[1..])
      else Outcome(ts == [], [])
    case InExtensions(mime) =>
      if HeadIs(ts, STRING) then Then([AddMimeType(ts[0].value.text, mime)], Recognise(m, ts[1..]))
      else Recognise(BetweenMimes, ts)
    case NeedArg(c) =>
      if HeadIs(ts, STRING) then Then(StmtEvents(OneArg(c, ts[0].value)), Recognise(InStatements, ts[1..]))
      else Outcome(false, [])
    case NeedFirst(c) =>
      if HeadIs(ts, STRING) then Recognise(NeedSecond(c, ts[0].value.text), ts[1..])
      else Outcome(false, [])
    case NeedSecond(c, first) =>
      if HeadIs(ts, STRING)
      then Then(StmtEvents(TwoArgs(c, Value(first, false), ts[0].value)), Recognise(InStatements, ts[1..]))
      else Outcome(false, [])
  }

  // ---------------------------------------------------------------- what each LALR state stands for

  /** The only stack that can have a given state on top. */
  function StackOf(state: int): seq<int>
    requires IsState(state)
  {
    if state == 0 then [0]
    else if state == 3 then [0, 1, 3]
    else if state < 3 then [0, state]
    else if state <= 11 then [0, 2, state]
    else if state == 12 then [0, 2, 5, 12]
    else if state == 13 then [0, 2, 6, 13]
    else if state == 14 then [0, 2, 11, 14]
    else if state == 15 then [0, 2, 11, 15]
    else if state == 16 then [0, 2, 6, 13, 16]
    else if state == 17 then [0, 2, 11, 14, 17]
    else if state == 18 then [0, 2, 6, 13, 16, 18]
    else if state == 19 then [0, 2, 11, 14, 17, 19]
    else [0, 2, 11, 14, 17, 19, state]
  }

  /** What is still to come when `state` is on top, given the value stack, the two
      globals of the semantic actions and the tokens not yet shifted. */
  function Future(state: int, vs: seq<Value>, hold: string, mime: string, ts: seq<Token>): Outcome
    requires IsState(state) && |vs| == |StackOf(state)|
  {
    if state == 1 then Outcome(ts == [], [])
    else if state == 3 then Outcome(true, [])
    else if state == 4 then Then(StmtEvents(NoArgs(vs[2])), Recognise(InStatements, ts))
    else if state == 5 then Recognise(NeedArg(vs[2]), ts)
    else if state == 6 then Recognise(NeedFirst(vs[2]), ts)
    else if state == 12 then Then(StmtEvents(OneArg(vs[2], vs[3])), Recognise(InStatements, ts))
    else if state == 13 then Recognise(NeedSecond(vs[2], vs[3].text), ts)
    else if state == 16 then Recognise(NeedSecond(vs[2], hold), ts)
    else if state == 18
    then Then(StmtEvents(TwoArgs(vs[2], Value(hold, false), vs[5])), Recognise(InStatements, ts))
    else if state == 11 || state == 15 then Recognise(BetweenMimes, ts)
    else if state == 14 then Recognise(InExtensions(vs[3].text), ts)
    else if state == 17 || state == 19 || state == 21 then Recognise(InExtensions(mime), ts)
    else if state == 20 then Then([AddMimeType(vs[6].text, mime)], Recognise(InExtensions(mime), ts))
    else Recognise(InStatements, ts)
  }

  /** How many reductions can still follow without a shift. */
  function Rank(state: int): nat {
    if state == 0 then 7
    else if state == 4 || state == 12 || state == 18 || state == 20 || state == 14 then 6
    else if state == 8 || state == 9 || state == 10 || state == 21 || state == 17 then 5
    else if state == 7 || state == 19 then 4
    else if state == 2 || state == 15 then 3
    else if state == 11 || state == 13 then 2
    else 1
  }

  /** The semantic action of a rule: the calls it makes, and the new arg1hold and mime_type. */
  function SemanticAction(rule: int, vs: seq<Value>, hold: string, mime: string): (seq<Event>, string, string)
    requires 1 <= rule < |YYR2| && YYR2[rule] < |vs|
    requires rule == 10 || rule == 14 ==> 2 <= |vs|
  {
    var n := |vs|;
    if rule == 8 then (if vs[n-1].hasAction then [CallNoArgs(vs[n-1].text)] else [], hold, mime)
    else if rule == 9 then (if vs[n-2].hasAction then [CallOneArg(vs[n-2].text, vs[n-1].text)] else [], hold, mime)
    else if rule == 10 then ([], vs[n-1].text, mime)
    else if rule == 11
    then (if vs[n-4].hasAction then [CallTwoArgs(vs[n-4].text, vs[n-1].text, hold)] else [], hold, mime)
    else if rule == 14 then ([], hold, vs[n-1].text)
    else if rule == 18 then ([AddMimeType(vs[n-1].text, mime)], hold, mime)
    else ([], hold, mime)
  }

  /** The parser's reading of a token string: up to the first code that is not positive. */
  function UpToEnd(input: seq<Token>): seq<Token> {
    if input == [] || input[0].code <= YYEOF then [] else [input[0]] + UpToEnd(input[1..])
  }

  /** The internal number of the next token. */
  function Lookahead(ts: seq<Token>): int {
    if ts == [] then 0 else YyTranslate(ts[0].code)
  }

  /** What the tables say in `state` with `ts` still to be shifted. */
  function TableAction(state: int, ts: seq<Token>): Action
    requires IsState(state)
  {
    if YYPACT[state] == YYPACT_NINF then DefaultAction(state) else LookupAction(state, Lookahead(ts))
  }

  // ---------------------------------------------------------------- one step of the tables

  /** The automaton the packed tables encode, written out. */
  function Automaton(state: int, ts: seq<Token>): Action
    requires IsState(state)
  {
    if state == 1 then (if ts == [] then Shift(YYFINAL) else SyntaxError)
    else if state == 2 then
      (if HeadIs(ts, STMT_NO_ARGS) then Shift(4) else if HeadIs(ts, STMT_ONE_ARG) then Shift(5)
       else if HeadIs(ts, STMT_TWO_ARGS) then Shift(6) else Reduce(13))
    else if state == 5 then (if HeadIs(ts, STRING) then Shift(12) else SyntaxError)
    else if state == 6 then (if HeadIs(ts, STRING) then Shift(13) else SyntaxError)
    else if state == 11 then (if HeadIs(ts, MIMETYPE) then Shift(14) else Reduce(2))
    else if state == 16 then (if HeadIs(ts, STRING) then Shift(18) else SyntaxError)
    else if state == 19 then (if HeadIs(ts, STRING) then Shift(20) else Reduce(15))
    else DefaultAction(state)
  }

  lemma TokenSymbols(ts: seq<Token>)
    requires forall t :: t in ts ==> t.code > YYEOF
    ensures 0 <= Lookahead(ts) <= 8 && (Lookahead(ts) == 0 <==> ts == [])
    ensures forall c :: STMT_NO_ARGS <= c <= STRING ==> (HeadIs(ts, c) <==> Lookahead(ts) == c - 255)
  {
    if ts != [] { assert ts[0] in ts; }
  }

  /** Unpacking the tables, for every state and every next token. */
  lemma TablesEncodeAutomaton(state: int, ts: seq<Token>)
    requires IsState(state) && state != YYFINAL
    requires forall t :: t in ts ==> t.code > YYEOF
    ensures TableAction(state, ts) == Automaton(state, ts)
  {
    TokenSymbols(ts);
    hide Lookahead, HeadIs;
    var symbol := Lookahead(ts);
    if state == 1 {
    } else if state == 2 {
    } else if state == 5 {
    } else if state == 6 {
    } else if state == 11 {
    } else if state == 16 {
    } else if state == 19 {
    }
  }

  /** A shift consumes the next token and keeps the meaning of the state. */
  lemma ShiftStep(state: int, vs: seq<Value>, hold: string, mime: string, ts: seq<Token>)
    requires IsState(state) && |vs| == |StackOf(state)| && state != YYFINAL
    requires Automaton(state, ts).Shift?
    ensures var s := Automaton(state, ts).state;
      if ts == [] then state == 1 && s == YYFINAL
      else
        && IsState(s) && StackOf(s) == StackOf(state) + [s]
        && Future(s, vs + [ts[0].value], hold, mime, ts[1..]) == Future(state, vs, hold, mime, ts)
  {
  }

  /** The state entered after the one reduction a state can make. */
  function ReduceTarget(state: int): int {
    if state == 0 then 2 else if state == 2 then 11 else if state == 4 then 8
    else if state == 7 then 2 else if 8 <= state <= 10 then 7 else if state == 11 then 1
    else if state == 12 then 9 else if state == 13 then 16 else if state == 14 then 17
    else if state == 15 then 11 else if state == 17 then 19 else if state == 18 then 10
    else if state == 19 then 15 else if state == 20 then 21 else if state == 21 then 19
    else 0
  }

  predicate Reducing(state: int) {
    IsState(state) && state !in {1, 3, 5, 6, 16}
  }

  lemma ReductionIsDefault(state: int, ts: seq<Token>)
    requires IsState(state) && state != YYFINAL && Automaton(state, ts).Reduce?
    ensures Reducing(state) && Automaton(state, ts).rule == YYDEFACT[state]
  {
  }

  /** The stack a reduction leaves has the one shape the new state can have, and the chain
      of reductions gets shorter. */
  lemma ReduceShape(state: int)
    requires Reducing(state)
    ensures var rule := YYDEFACT[state];
      && 1 <= rule < |YYR1| && YYR2[rule] < |StackOf(state)|
      && (rule == 10 || rule == 14 ==> 2 <= |StackOf(state)|)
      && GotoState(StackOf(state)[|StackOf(state)| - YYR2[rule] - 1], rule) == ReduceTarget(state)
    ensures IsState(ReduceTarget(state)) && ReduceTarget(state) != YYFINAL
    ensures Rank(ReduceTarget(state)) < Rank(state)
    ensures StackOf(ReduceTarget(state))
      == StackOf(state)[..|StackOf(state)| - YYR2[YYDEFACT[state]]] + [ReduceTarget(state)]
  {
    if state == 0 {
    } else if state == 2 {
    } else if state == 4 {
    } else if state == 7 {
    } else if state == 8 {
    } else if state == 9 {
    } else if state == 10 {
    } else if state == 11 {
    } else if state == 12 {
    } else if state == 13 {
    } else if state == 14 {
    } else if state == 15 {
    } else if state == 17 {
    } else if state == 18 {
    } else if state == 19 {
    } else if state == 20 {
    } else if state == 21 {
    }
  }

  predicate Reduces(state: int, before: Outcome, vs: seq<Value>, vs': seq<Value>,
                    hold: string, mime: string, ts: seq<Token>)
    requires IsState(state) && IsState(ReduceTarget(state)) && |vs'| == |StackOf(ReduceTarget(state))|
  {
    var rule := YYDEFACT[state];
    && 1 <= rule < |YYR2| && YYR2[rule] < |vs| && (rule == 10 || rule == 14 ==> 2 <= |vs|)
    && var (events, hold', mime') := SemanticAction(rule, vs, hold, mime);
       before == Then(events, Future(ReduceTarget(state), vs', hold', mime', ts))
  }

  /** A reduction is the default one of its state; it runs the action of its rule and keeps
      the meaning. */
  lemma ReduceStep(state: int, vs: seq<Value>, v: Value, hold: string, mime: string, ts: seq<Token>)
    requires IsState(state) && |vs| == |StackOf(state)| && state != YYFINAL
    requires Automaton(state, ts).Reduce?
    ensures Reducing(state) && Automaton(state, ts).rule == YYDEFACT[state]
    ensures var rule := YYDEFACT[state];
      && 1 <= rule < |YYR1| && YYR2[rule] < |vs|
      && IsState(ReduceTarget(state)) && |StackOf(ReduceTarget(state))| == |vs| - YYR2[rule] + 1
      && Reduces(state, Future(state, vs, hold, mime, ts), vs, vs[..|vs| - YYR2[rule]] + [v], hold, mime, ts)
  {
    ReductionIsDefault(state, ts);
    hide Future, Reduces, StackOf, ReduceTarget;
    ReduceShape(state);
    var vs' := vs[..|vs| - YYR2[YYDEFACT[state]]] + [v];
    if state == 4 || state == 12 || state == 18 {
      ReduceStatement(state, vs, vs', hold, mime, ts);
    } else if state == 13 || state == 14 || state == 20 {
      ReduceGlobal(state, vs, vs', hold, mime, ts);
    } else {
      ReduceSilent(state, vs, vs', hold, mime, ts);
    }
  }

  lemma ReduceStatement(state: int, vs: seq<Value>, vs': seq<Value>, hold: string, mime: string, ts: seq<Token>)
    requires state == 4 || state == 12 || state == 18
    requires |vs| == |StackOf(state)| && |vs'| == |StackOf(ReduceTarget(state))|
    ensures Reduces(state, Future(state, vs, hold, mime, ts), vs, vs', hold, mime, ts)
  {
  }

  lemma ReduceGlobal(state: int, vs: seq<Value>, vs': seq<Value>, hold: string, mime: string, ts: seq<Token>)
    requires state == 13 || state == 14 || state == 20
    requires |vs| == |StackOf(state)| && |vs'| == |StackOf(ReduceTarget(state))|
    requires state == 13 ==> vs <= vs'
    ensures Reduces(state, Future(state, vs, hold, mime, ts), vs, vs', hold, mime, ts)
  {
    var f := Future(state, vs, hold, mime, ts);
    assert Then([], f) == f;
  }

  lemma ReduceSilent(state: int, vs: seq<Value>, vs': seq<Value>, hold: string, mime: string, ts: seq<Token>)
    requires state in {0, 2, 7, 8, 9, 10, 11, 15, 17, 19, 21}
    requires |vs| == |StackOf(state)| && |vs'| == |StackOf(ReduceTarget(state))|
    requires state == 2 ==>
      !HeadIs(ts, STMT_NO_ARGS) && !HeadIs(ts, STMT_ONE_ARG) && !HeadIs(ts, STMT_TWO_ARGS)
    requires state == 11 ==> !HeadIs(ts, MIMETYPE)
    requires state == 19 ==> !HeadIs(ts, STRING)
    ensures Reduces(state, Future(state, vs, hold, mime, ts), vs, vs', hold, mime, ts)
  {
    var f := Future(state, vs, hold, mime, ts);
    assert Then([], f) == f;
  }

  /** Where the tables report an error nothing more can be accepted or called. */
  lemma ErrorStep(state: int, vs: seq<Value>, hold: string, mime: string, ts: seq<Token>)
    requires IsState(state) && |vs| == |StackOf(state)| && state != YYFINAL
    requires Automaton(state, ts).SyntaxError?
    ensures Future(state, vs, hold, mime, ts) == Outcome(false, [])
  {
  }

  // ---------------------------------------------------------------- the parser

  lemma UpToEndStep(input: seq<Token>, n: nat)
    requires n <= |input|
    ensures UpToEnd(input[n..]) == []
      <==> n == |input| || input[n].code <= YYEOF
    ensures n < |input| && input[n].code > YYEOF
      ==> UpToEnd(input[n..]) == [input[n]] + UpToEnd(input[n + 1..])
  {
    if n < |input| { assert input[n..][1..] == input[n + 1..]; }
  }

  lemma {:induction ts} UpToEndPositive(ts: seq<Token>)
    ensures forall t :: t in UpToEnd(ts) ==> t.code > YYEOF
  {
  }

  /** The two stacks, the globals the actions use and the calls made so far. */
  datatype Stacks = Stacks(yyss: seq<int>, yyvs: seq<Value>, arg1hold: string, mimeType: string, calls: seq<Event>)

  predicate WellStacked(st: Stacks) {
    && |st.yyss| > 0 && IsState(Top(st))
    && st.yyss == StackOf(Top(st)) && |st.yyvs| == |st.yyss|
  }

  function Top(st: Stacks): int
    requires |st.yyss| > 0
  {
    st.yyss[|st.yyss| - 1]
  }

  /** The calls made so far followed by what is still to come. */
  function Whole(st: Stacks, ts: seq<Token>): Outcome
    requires WellStacked(st)
  {
    Then(st.calls, Future(Top(st), st.yyvs, st.arg1hold, st.mimeType, ts))
  }

  /** yyreduce: run the action, pop the right-hand side, push the goto state. */
  method ReduceBy(st: Stacks, rule: int, yylval: Value, ghost ts: seq<Token>) returns (st': Stacks)
    requires WellStacked(st) && Top(st) != YYFINAL && Automaton(Top(st), ts) == Reduce(rule)
    requires forall t :: t in ts ==> t.code > YYEOF
    ensures WellStacked(st') && Whole(st', ts) == Whole(st, ts)
    ensures Top(st') != YYFINAL && Rank(Top(st')) < Rank(Top(st))
  {
    hide StackOf, Future, Rank, ReduceTarget, Automaton, SemanticAction, GotoState;
    ghost var state := Top(st);
    ReductionIsDefault(state, ts);
    ReduceShape(state);
    var len := YYR2[rule];
    var yyval := if len == 0 then yylval else st.yyvs[|st.yyvs| - len];
    ReduceStep(state, st.yyvs, yyval, st.arg1hold, st.mimeType, ts);
    var (events, hold, mime) := SemanticAction(rule, st.yyvs, st.arg1hold, st.mimeType);
    var yyss := st.yyss[..|st.yyss| - len];
    var yystate := GotoState(yyss[|yyss| - 1], rule);
    st' := Stacks(yyss + [yystate], st.yyvs[..|st.yyvs| - len] + [yyval], hold, mime, st.calls + events);
    ghost var f := Future(yystate, st'.yyvs, hold, mime, ts);
    assert st.calls + (events + f.events) == (st.calls + events) + f.events;
  }

  /** The shift of the lookahead token. */
  method ShiftTo(st: Stacks, s: int, yylval: Value, ghost ts: seq<Token>) returns (st': Stacks)
    requires WellStacked(st) && Top(st) != YYFINAL && Automaton(Top(st), ts) == Shift(s)
    requires forall t :: t in ts ==> t.code > YYEOF
    requires ts != [] ==> yylval == ts[0].value
    ensures WellStacked(st')
    ensures if ts == [] then Top(st') == YYFINAL && Whole(st, ts) == Outcome(true, st'.calls)
            else Whole(st', ts[1..]) == Whole(st, ts) && Top(st') != YYFINAL
  {
    ShiftStep(Top(st), st.yyvs, st.arg1hold, st.mimeType, ts);
    st' := st.(yyss := st.yyss + [s], yyvs := st.yyvs + [yylval]);
  }

  /** yyerrlab1: pop until a state can shift the error token.  None can. */
  method PopForError(yyss: seq<int>) returns (recovered: bool)
    requires |yyss| > 0 && forall s :: s in yyss ==> IsState(s)
    ensures !recovered
  {
    recovered := false;
    var n := |yyss|;
    while n > 0 && !recovered
      invariant 0 <= n <= |yyss| && !recovered
      decreases n
    {
      assert yyss[n - 1] in yyss;
      var yyn := YYPACT[yyss[n - 1]];
      if yyn != YYPACT_NINF {
        yyn := yyn + YYTERROR;
        var entry := if 0 <= yyn <= YYLAST then YYTABLE[yyn] else 0;
        recovered := 0 <= yyn <= YYLAST && YYCHECK[yyn] == YYTERROR && 0 < entry;
      }
      n := n - 1;
    }
  }

  /** yyparse on the tokens yylex returns, the end of `input` being the end of the file.
      The result is 0 or 1, never 2; the calls made are those of the recogniser; and the
      state stack never holds more than seven entries. */
  method YyParse(input: seq<Token>) returns (yyresult: int, calls: seq<Event>, depth: nat)
    ensures var o := Recognise(InStatements, UpToEnd(input));
      yyresult == (if o.accepted then 0 else 1) && calls == o.events
    ensures depth <= 7
  {
    var yychar, yylval := YYEMPTY, Value("", false);
    var yystacksize := YYINITDEPTH;
    var st := Stacks([0], [yylval], "", "", []);
    var next: nat := 0;                    // tokens already returned by yylex
    ghost var rest := UpToEnd(input);      // tokens still to be shifted
    ghost var all := Recognise(InStatements, rest);
    var done := false;
    yyresult, depth := 0, 1;
    assert input[0..] == input;
    while !done
      invariant WellStacked(st) && yystacksize == YYINITDEPTH && depth <= 7
      invariant !done && Top(st) != YYFINAL ==> Whole(st, rest) == all
      invariant !done && Top(st) == YYFINAL ==> rest == [] && all == Outcome(true, st.calls)
      invariant !done && Top(st) != YYFINAL ==>
          if yychar == YYEMPTY then next <= |input| && rest == UpToEnd(input[next..])
          else if rest == [] then yychar == YYEOF
          else 0 < next <= |input| && rest == UpToEnd(input[next - 1..])
               && yychar == rest[0].code && yylval == rest[0].value
      invariant done ==> yyresult == (if all.accepted then 0 else 1) && st.calls == all.events
      decreases !done, |rest| + (if Top(st) == YYFINAL then 0 else 1), Rank(Top(st))
    {
      var yystate := Top(st);
      depth := if depth < |st.yyss| then |st.yyss| else depth;
      if yystacksize <= |st.yyss| {
        // the stacks would have to grow; the invariant shows that they never do
        yyresult := if YYMAXDEPTH <= yystacksize then 2 else 1;
        done := true;
      } else if yystate == YYFINAL {
        yyresult := 0;
        done := true;
      } else {
        var action;
        yychar, yylval, next, action := Decide(input, yystate, yychar, yylval, next, rest);
        match action {
          case Shift(s) =>
            st := ShiftTo(st, s, yylval, rest);
            yychar := YYEMPTY;
            rest := if rest == [] then [] else rest[1..];
          case Reduce(rule) =>
            st := ReduceBy(st, rule, yylval, rest);
          case SyntaxError =>
            ErrorStep(yystate, st.yyvs, st.arg1hold, st.mimeType, rest);
            var recovered := PopForError(st.yyss);
            yyresult := 1;
            done := true;
        }
      }
    }
    calls := st.calls;
  }

  /** yybackup: read a lookahead token if the state needs one and none is held. */
  method Decide(input: seq<Token>, yystate: int, yychar: int, yylval: Value, next: nat, ghost rest: seq<Token>)
    returns (yychar': int, yylval': Value, next': nat, action: Action)
    requires IsState(yystate) && yystate != YYFINAL
    requires if yychar == YYEMPTY then next <= |input| && rest == UpToEnd(input[next..])
          else if rest == [] then yychar == YYEOF
          else 0 < next <= |input| && rest == UpToEnd(input[next - 1..])
               && yychar == rest[0].code && yylval == rest[0].value
    ensures action == Automaton(yystate, rest)
    ensures forall t :: t in rest ==> t.code > YYEOF
    ensures if yychar' == YYEMPTY then next' <= |input| && rest == UpToEnd(input[next'..])
          else if rest == [] then yychar' == YYEOF
          else 0 < next' <= |input| && rest == UpToEnd(input[next' - 1..])
               && yychar' == rest[0].code && yylval' == rest[0].value
    ensures action.Shift? && rest != [] ==>
      0 < next' <= |input| && rest[1..] == UpToEnd(input[next'..]) && yylval' == rest[0].value
  {
    yychar', yylval', next', action := yychar, yylval, next, DefaultAction(yystate);
    if yychar == YYEMPTY { UpToEndPositive(input[next..]); UpToEndStep(input, next); }
    else if rest != [] { UpToEndPositive(input[next - 1..]); UpToEndStep(input, next - 1); }
    if YYPACT[yystate] != YYPACT_NINF {
      if yychar' == YYEMPTY {
        if next < |input| {
          yychar', yylval', next' := input[next].code, input[next].value, next + 1;
        } else {
          yychar' := YYEOF;
        }
      }
      if yychar' <= YYEOF {
        yychar' := YYEOF;
      }
      action := LookupAction(yystate, YyTranslate(yychar'));
    }
    TablesEncodeAutomaton(yystate, rest);
  }

  // ---------------------------------------------------------------- the recogniser is the grammar

  /** How many tokens a reader in mode `m` has passed when it last stood at the end of a
      complete file; negative when the statement it is in never gets completed. */
  function Complete(m: Mode, ts: seq<Token>): (n: int)
    ensures -1 <= n <= |ts|
    ensures m.InStatements? || m.BetweenMimes? || m.InExtensions? ==> 0 <= n
    decreases |ts|, if m.InStatements? || m.InExtensions? then 1 else 0
  {
    match m
    case InStatements =>
      if HeadIs(ts, STMT_NO_ARGS) then 1 + Complete(InStatements, ts[1..])
      else if HeadIs(ts, STMT_ONE_ARG) then Started(Complete(NeedArg(ts[0].value), ts[1..]))
      else if HeadIs(ts, STMT_TWO_ARGS) then Started(Complete(NeedFirst(ts[0].value), ts[1..]))
      else Complete(BetweenMimes, ts)
    case BetweenMimes =>
      if HeadIs(ts, MIMETYPE) then 1 + Complete(InExtensions(ts[0].value.text), ts[1..]) else 0
    case InExtensions(mime) =>
      if HeadIs(ts, STRING) then 1 + Complete(m, ts[1..]) else Complete(BetweenMimes, ts)
    case NeedFirst(c) =>
      if HeadIs(ts, STRING) && Complete(NeedSecond(c, ts[0].value.text), ts[1..]) >= 0
      then 1 + Complete(NeedSecond(c, ts[0].value.text), ts[1..]) else -1
    case _ =>
      if HeadIs(ts, STRING) then 1 + Complete(InStatements, ts[1..]) else -1
  }

  function Started(n: int): int { if n < 0 then 0 else 1 + n }

  /** A reader passes the statements of a file, making their calls. */
  lemma {:induction false} PassStatements(ss: seq<Stmt>, ts: seq<Token>)
    ensures Recognise(InStatements, StmtsTokens(ss) + ts) == Then(StmtsEvents(ss), Recognise(InStatements, ts))
    ensures Complete(InStatements, StmtsTokens(ss) + ts) == |StmtsTokens(ss)| + Complete(InStatements, ts)
  {
    hide Recognise, Complete;
    if ss == [] {
      assert StmtsTokens(ss) + ts == ts;
      assert [] + Recognise(InStatements, ts).events == Recognise(InStatements, ts).events;
    } else {
      PassStatements(ss[1..], ts);
      var rest := StmtsTokens(ss[1..]) + ts;
      PassStatement(ss[0], rest);
      assert StmtsTokens(ss) + ts == StmtTokens(ss[0]) + rest;
      var e := Recognise(InStatements, ts).events;
      assert StmtEvents(ss[0]) + (StmtsEvents(ss[1..]) + e) == StmtsEvents(ss) + e;
    }
  }

  lemma PassStatement(s: Stmt, rest: seq<Token>)
    ensures Recognise(InStatements, StmtTokens(s) + rest) == Then(StmtEvents(s), Recognise(InStatements, rest))
    ensures Complete(InStatements, StmtTokens(s) + rest) == |StmtTokens(s)| + Complete(InStatements, rest)
  {
    var ts := StmtTokens(s) + rest;
    assert ts[|StmtTokens(s)|..] == rest;
    match s
    case NoArgs(c) =>
    case OneArg(c, a) => assert ts[1..][1..] == rest;
    case TwoArgs(c, a, b) =>
      var t1, t2 := ts[1..], ts[1..][1..];
      assert t2[1..] == rest;
      assert Recognise(InStatements, ts) == Recognise(NeedFirst(c), t1);
      assert Recognise(NeedFirst(c), t1) == Recognise(NeedSecond(c, a.text), t2);
      assert Recognise(NeedSecond(c, a.text), t2)
        == Then(StmtEvents(TwoArgs(c, Value(a.text, false), b)), Recognise(InStatements, rest));
      assert Complete(NeedSecond(c, a.text), t2) == 1 + Complete(InStatements, rest);
      assert Complete(NeedFirst(c), t1) == 2 + Complete(InStatements, rest);
  }

  lemma {:induction false} PassExtensions(mime: string, es: seq<Value>, ts: seq<Token>)
    ensures Recognise(InExtensions(mime), ExtTokens(es) + ts)
         == Then(ExtEvents(mime, es), Recognise(InExtensions(mime), ts))
    ensures Complete(InExtensions(mime), ExtTokens(es) + ts) == |es| + Complete(InExtensions(mime), ts)
    ensures |ExtTokens(es)| == |es|
  {
    hide Recognise, Complete;
    var e := Recognise(InExtensions(mime), ts).events;
    if es == [] {
      assert ExtTokens(es) + ts == ts;
      assert [] + e == e;
    } else {
      var rest := ExtTokens(es[1..]) + ts;
      PassExtensions(mime, es[1..], ts);
      PassExtension(mime, es[0], rest);
      assert ExtTokens(es) + ts == [Token(STRING, es[0])] + rest;
      assert [AddMimeType(es[0].text, mime)] + (ExtEvents(mime, es[1..]) + e) == ExtEvents(mime, es) + e;
    }
  }

  lemma PassExtension(mime: string, v: Value, rest: seq<Token>)
    ensures Recognise(InExtensions(mime), [Token(STRING, v)] + rest)
         == Then([AddMimeType(v.text, mime)], Recognise(InExtensions(mime), rest))
    ensures Complete(InExtensions(mime), [Token(STRING, v)] + rest) == 1 + Complete(InExtensions(mime), rest)
  {
    assert ([Token(STRING, v)] + rest)[1..] == rest;
  }

  /** A reader past the statements accepts every list of MIME entries, and no prefix of it
      is the last complete file it sees. */
  lemma {:induction false} PassMimes(m: Mode, ms: seq<MimeEntry>, ts: seq<Token>)
    requires m.InStatements? || m.BetweenMimes? || m.InExtensions?
    ensures Complete(m, MimesTokens(ms) + ts) >= |MimesTokens(ms)|
    ensures ts == [] ==> Recognise(m, MimesTokens(ms)) == Outcome(true, MimesEvents(ms))
    decreases |ms|
  {
    if ms == [] {
      NoMimes(m, ts);
    } else {
      var mime := ms[0].mimeType.text;
      var rest := MimesTokens(ms[1..]) + ts;
      FirstMime(ms, ts);
      hide Recognise, Complete, ExtTokens, ExtEvents, MimesTokens;
      PassMimeType(m, ms[0].mimeType, ExtTokens(ms[0].extensions) + rest);
      PassMimes(InExtensions(mime), ms[1..], ts);
      PassExtensions(mime, ms[0].extensions, rest);
    }
  }

  lemma NoMimes(m: Mode, ts: seq<Token>)
    requires m.InStatements? || m.BetweenMimes? || m.InExtensions?
    ensures |MimesTokens([])| == 0 && (ts == [] ==> Recognise(m, MimesTokens([])) == Outcome(true, MimesEvents([])))
  {
  }

  lemma FirstMime(ms: seq<MimeEntry>, ts: seq<Token>)
    requires ms != []
    ensures MimesTokens(ms) + ts
      == [Token(MIMETYPE, ms[0].mimeType)] + (ExtTokens(ms[0].extensions) + (MimesTokens(ms[1..]) + ts))
    ensures ts == [] ==> MimesTokens(ms) + ts == MimesTokens(ms) && MimesTokens(ms[1..]) + ts == MimesTokens(ms[1..])
    ensures |MimesTokens(ms)| == 1 + |ExtTokens(ms[0].extensions)| + |MimesTokens(ms[1..])|
  {
    Regroup([Token(MIMETYPE, ms[0].mimeType)], ExtTokens(ms[0].extensions), MimesTokens(ms[1..]), ts);
    hide ExtTokens;
  }

  lemma Regroup<T>(a: seq<T>, b: seq<T>, c: seq<T>, d: seq<T>)
    ensures (a + b + c) + d == a + (b + (c + d)) && (d == [] ==> (a + b + c) + d == a + b + c && c + d == c)
  {
  }

  lemma PassMimeType(m: Mode, mimeType: Value, tail: seq<Token>)
    requires m.InStatements? || m.BetweenMimes? || m.InExtensions?
    ensures Recognise(m, [Token(MIMETYPE, mimeType)] + tail) == Recognise(InExtensions(mimeType.text), tail)
    ensures Complete(m, [Token(MIMETYPE, mimeType)] + tail) == 1 + Complete(InExtensions(mimeType.text), tail)
  {
    var ts := [Token(MIMETYPE, mimeType)] + tail;
    assert ts[1..] == tail;
    assert Recognise(m, ts) == Recognise(BetweenMimes, ts) && Complete(m, ts) == Complete(BetweenMimes, ts);
  }

  /** Every file is accepted, with its own calls. */
  lemma FileAccepted(f: ConfigFile)
    ensures Recognise(InStatements, FileTokens(f)) == Outcome(true, FileEvents(f))
  {
    PassStatements(f.stmts, MimesTokens(f.mimes));
    PassMimes(InStatements, f.mimes, []);
  }

  /** No longer prefix of the input than `Complete` says is the token string of a file. */
  lemma NoLongerFile(f: ConfigFile, ts: seq<Token>, n: nat)
    requires n <= |ts| && FileTokens(f) == ts[..n]
    ensures n <= Complete(InStatements, ts)
  {
    hide Recognise, Complete, StmtsTokens, MimesTokens;
    var rest := ts[n..];
    PassStatements(f.stmts, MimesTokens(f.mimes) + rest);
    PassMimes(InStatements, f.mimes, rest);
    assert ts == StmtsTokens(f.stmts) + (MimesTokens(f.mimes) + rest);
  }

  /** The part up to `Complete` is a file, whose calls are the ones made. */
  lemma {:induction false} CompletedFile(ts: seq<Token>) returns (f: ConfigFile)
    ensures var n := Complete(InStatements, ts);
      && FileTokens(f) == ts[..n]
      && Recognise(InStatements, ts) == Outcome(n == |ts|, FileEvents(f))
    decreases |ts|
  {
    if HeadIs(ts, STMT_NO_ARGS) {
      f := PrependStatement(NoArgs(ts[0].value), ts);
    } else if HeadIs(ts, STMT_ONE_ARG) && HeadIs(ts[1..], STRING) {
      f := PrependStatement(OneArg(ts[0].value, ts[1].value), ts);
    } else if HeadIs(ts, STMT_TWO_ARGS) && HeadIs(ts[1..], STRING) && HeadIs(ts[2..], STRING) {
      f := PrependStatement(TwoArgs(ts[0].value, ts[1].value, ts[2].value), ts);
    } else if HeadIs(ts, STMT_ONE_ARG) {
      f := ConfigFile([], []);
      assert Complete(NeedArg(ts[0].value), ts[1..]) == -1;
    } else if HeadIs(ts, STMT_TWO_ARGS) {
      f := ConfigFile([], []);
      if HeadIs(ts[1..], STRING) {
        assert ts[1..][1..] == ts[2..];
        assert Complete(NeedSecond(ts[0].value, ts[1].value.text), ts[2..]) == -1;
        assert Recognise(NeedSecond(ts[0].value, ts[1].value.text), ts[2..]) == Outcome(false, []);
      }
      assert Complete(NeedFirst(ts[0].value), ts[1..]) == -1;
      assert Recognise(NeedFirst(ts[0].value), ts[1..]) == Outcome(false, []);
    } else {
      var ms := CompletedMimes(BetweenMimes, ts);
      f := ConfigFile([], ms);
      assert FileTokens(f) == MimesTokens(ms) && FileEvents(f) == MimesEvents(ms);
    }
  }

  lemma {:induction false} PrependStatement(s: Stmt, ts: seq<Token>) returns (f: ConfigFile)
    requires StmtTokens(s) <= ts
    ensures var n := Complete(InStatements, ts);
      && FileTokens(f) == ts[..n]
      && Recognise(InStatements, ts) == Outcome(n == |ts|, FileEvents(f))
    decreases |ts|, 0
  {
    hide Recognise, Complete, MimesTokens, MimesEvents;
    var k := |StmtTokens(s)|;
    var rest := ts[k..];
    var g := CompletedFile(rest);
    f := ConfigFile([s] + g.stmts, g.mimes);
    PassStatement(s, rest);
    FileWithStatement(s, g);
    hide FileTokens, FileEvents;
    assert ts == StmtTokens(s) + rest;
    assert ts[..k + Complete(InStatements, rest)] == StmtTokens(s) + rest[..Complete(InStatements, rest)];
  }

  lemma FileWithStatement(s: Stmt, g: ConfigFile)
    ensures FileTokens(ConfigFile([s] + g.stmts, g.mimes)) == StmtTokens(s) + FileTokens(g)
    ensures FileEvents(ConfigFile([s] + g.stmts, g.mimes)) == StmtEvents(s) + FileEvents(g)
  {
    var stmts := [s] + g.stmts;
    assert stmts[1..] == g.stmts;
    assert StmtsTokens(stmts) == StmtTokens(s) + StmtsTokens(g.stmts);
    assert StmtsEvents(stmts) == StmtEvents(s) + StmtsEvents(g.stmts);
  }

  lemma {:induction false} CompletedMimes(m: Mode, ts: seq<Token>) returns (ms: seq<MimeEntry>)
    requires m.BetweenMimes?
    ensures var n := Complete(m, ts);
      && MimesTokens(ms) == ts[..n]
      && Recognise(m, ts) == Outcome(n == |ts|, MimesEvents(ms))
    decreases |ts|, 1
  {
    if HeadIs(ts, MIMETYPE) {
      var es, tail := CompletedExtensions(ts[0].value.text, ts[1..]);
      ms := [MimeEntry(ts[0].value, es)] + tail;
      assert ms[1..] == tail;
      var n := Complete(InExtensions(ts[0].value.text), ts[1..]);
      assert ts[..1 + n] == [ts[0]] + ts[1..][..n];
      assert MimesTokens(ms) == [ts[0]] + (ExtTokens(es) + MimesTokens(tail));
    } else {
      ms := [];
    }
  }

  lemma {:induction false} CompletedExtensions(mime: string, ts: seq<Token>)
    returns (es: seq<Value>, ms: seq<MimeEntry>)
    ensures var n := Complete(InExtensions(mime), ts);
      && ExtTokens(es) + MimesTokens(ms) == ts[..n]
      && Recognise(InExtensions(mime), ts) == Outcome(n == |ts|, ExtEvents(mime, es) + MimesEvents(ms))
    decreases |ts|, 2
  {
    if HeadIs(ts, STRING) {
      var es', ms' := CompletedExtensions(mime, ts[1..]);
      es, ms := [ts[0].value] + es', ms';
      var n := Complete(InExtensions(mime), ts[1..]);
      assert es[1..] == es';
      assert ts[..1 + n] == [ts[0]] + ts[1..][..n];
      assert ExtTokens(es) + MimesTokens(ms) == [ts[0]] + (ExtTokens(es') + MimesTokens(ms'));
      assert ExtEvents(mime, es) + MimesEvents(ms)
        == [AddMimeType(ts[0].value.text, mime)] + (ExtEvents(mime, es') + MimesEvents(ms'));
    } else {
      es := [];
      ms := CompletedMimes(BetweenMimes, ts);
      assert ExtTokens(es) + MimesTokens(ms) == MimesTokens(ms);
      assert ExtEvents(mime, es) + MimesEvents(ms) == MimesEvents(ms);
    }
  }

  /** `n` is the length of the longest prefix of `ts` that is a whole configuration file. */
  ghost predicate LongestFile(ts: seq<Token>, n: nat) {
    && n <= |ts|
    && (exists f :: FileTokens(f) == ts[..n])
    && (forall f, m: nat :: m <= |ts| && FileTokens(f) == ts[..m] ==> m <= n)
  }

  /** The parser is the grammar: it succeeds exactly on the token strings of files, and
      whether it succeeds or not the calls it has made are exactly those of the longest
      prefix of its input that is a file, in order. */
  method ParseConfig(input: seq<Token>) returns (yyresult: int, calls: seq<Event>)
    ensures yyresult == 0 || yyresult == 1
    ensures yyresult == 0 <==> exists f :: FileTokens(f) == UpToEnd(input)
    ensures exists n: nat :: LongestFile(UpToEnd(input), n)
    ensures forall f, n: nat :: LongestFile(UpToEnd(input), n) && FileTokens(f) == UpToEnd(input)[..n]
              ==> calls == FileEvents(f)
  {
    var depth;
    yyresult, calls, depth := YyParse(input);
    ghost var ts := UpToEnd(input);
    ghost var n := Complete(InStatements, ts);
    ghost var f := CompletedFile(ts);
    forall g, m: nat | m <= |ts| && FileTokens(g) == ts[..m] ensures m <= n {
      NoLongerFile(g, ts, m);
    }
    assert LongestFile(ts, n);
    FileAccepted(f);
    forall g, m: nat | LongestFile(ts, m) && FileTokens(g) == ts[..m] ensures calls == FileEvents(g) {
      assert m == n;
      FileAccepted(g);
    }
    if exists g :: FileTokens(g) == ts {
      var g :| FileTokens(g) == ts;
      assert ts[..|ts|] == ts;
      NoLongerFile(g, ts, |ts|);
    }
    if n == |ts| { assert ts[..n] == ts; }
  }
}
