/** Printing paths, and what both parsers make of printed text
    (crates/renderer-core/src/render_object.rs and crates/renderer-core/src/tessellate.rs). */
module PathText {
  import opened Sequences
  import opened Decimal
  import opened PathParsers

  // ---- Numbers --------------------------------------------------------------

  lemma DigitCharValue(d: nat)
    requires d < 10
    ensures DigitValue(DigitChar(d)) == d
  {
  }

  lemma {:induction false} ValueOfRender(n: nat)
    ensures Value(Render(n)) == n
  {
    var s := Render(n);
    DigitCharValue(n % 10);
    if n < 10 {
      assert s[..0] == [];
    } else {
      ValueOfRender(n / 10);
      assert s[..|s| - 1] == Render(n / 10);
    }
  }

  lemma RenderedDigits(n: nat)
    ensures DigitsEnd(Render(n)) == |Render(n)|
  {
    DigitsThenEnd(Render(n), |Render(n)|);
  }

  /** Reading a token: a sign and digits. */
  lemma SignedDigits(sign: string, ds: string)
    requires |sign| <= 1 && (sign != [] ==> IsSign(sign[0])) && ds != [] && DigitsEnd(ds) == |ds| && !IsSign(ds[0])
    requires forall i :: 0 <= i < |ds| ==> IsDigit(ds[i])
    ensures ParseI32(sign + ds)
         == var v: int := Value(ds); var n := if sign == "-" then -v else v; if FitsI32(n) then Some(n) else None
  {
    hide Value, DigitsEnd, FitsI32;
    if sign == [] { assert sign + ds == ds; } else { assert (sign + ds)[1..] == ds; }
  }

  lemma RenderedNumber(n: nat)
    ensures var ds := Render(n);
            && ds != [] && DigitsEnd(ds) == |ds| && !IsSign(ds[0]) && (forall i :: 0 <= i < |ds| ==> IsDigit(ds[i]))
            && Value(ds) == n
  {
    ValueOfRender(n);
    RenderedDigits(n);
    NoSignAhead(Render(n)[0]);
    hide Value, DigitsEnd;
  }

  /** A printed number reads back as itself, and one outside the 32-bit range is refused. */
  lemma NumberReadsBack(n: int)
    ensures ParseI32(RenderInt(n)) == if FitsI32(n) then Some(n) else None
    ensures n >= 0 ==> ParseI32("+" + RenderInt(n)) == if FitsI32(n) then Some(n) else None
  {
    hide *;
    var m: nat := if n < 0 then -n else n;
    RenderedNumber(m);
    RenderIntIs(n);
    SignsAre();
    SignedDigits("-", Render(m));
    SignedDigits("+", Render(m));
    SignedDigits("", Render(m));
    assert "" + Render(m) == Render(m);
  }

  lemma RenderIntIs(n: int)
    ensures RenderInt(n) == if n < 0 then "-" + Render(-n) else Render(n)
  {
  }

  lemma SignsAre()
    ensures IsSign('-') && IsSign('+')
  {
  }

  predicate NumberChar(c: char) { IsDigit(c) || IsSign(c) }

  /** The text does not go on with a digit or a sign. */
  predicate Ends(rest: string) { rest == [] || !NumberChar(rest[0]) }

  lemma {:induction false} TokenEnds(token: string, rest: string)
    requires (forall i :: 0 <= i < |token| ==> NumberChar(token[i])) && Ends(rest)
    ensures NumberEnd(token + rest) == |token|
  {
    if token == [] {
      assert token + rest == rest;
    } else {
      TokenEnds(token[1..], rest);
      assert (token + rest)[1..] == token[1..] + rest;
    }
  }

  lemma {:induction false} SkipsSeparators(seps: string, token: string)
    requires forall i :: 0 <= i < |seps| ==> IsPlainSeparator(seps[i])
    requires token != [] && (NumberChar(token[0]) || IsLetter(token[0]))
    ensures SkipStrict(seps + token) == token && SkipPlain(seps + token) == token
  {
    hide NumberChar, IsLetter;
    if seps == [] {
      assert seps + token == token;
      TokenStarts(token[0]);
    } else {
      SkipsSeparators(seps[1..], token);
      assert (seps + token)[1..] == seps[1..] + token;
      PlainIsSeparator(seps[0]);
    }
  }

  lemma TokenStarts(c: char)
    requires NumberChar(c) || IsLetter(c)
    ensures !IsSeparator(c) && !IsPlainSeparator(c)
  {
    TokenIsNoSeparator(c);
  }

  lemma RenderedChars(n: int)
    ensures RenderInt(n) != [] && forall i :: 0 <= i < |RenderInt(n)| ==> NumberChar(RenderInt(n)[i])
  {
  }

  /** Both lexers read a printed number behind any plain separators, and stop right after it. */
  lemma LexersReadBack(seps: string, n: int, rest: string)
    requires (forall i :: 0 <= i < |seps| ==> IsPlainSeparator(seps[i])) && Ends(rest)
    ensures StrictInt(seps + RenderInt(n) + rest) == Lexed(if FitsI32(n) then Some(n) else None, rest)
    ensures LooseInt(seps + RenderInt(n) + rest) == Lexed(if FitsI32(n) then Some(n) else None, rest)
  {
    hide *;
    var token := RenderInt(n);
    var s, t := seps + token + rest, token + rest;
    RenderedChars(n);
    NumberReadsBack(n);
    SkipsSeparators(seps, t);
    assert s == seps + t;
    TokenEnds(token, rest);
    assert t[..|token|] == token && t[|token|..] == rest && t[0] == token[0];
    StrictIntOf(s, t);
    LooseIntOf(s, t, n, rest);
  }

  lemma StrictIntOf(s: string, t: string)
    requires SkipStrict(s) == t && NumberEnd(t) > 0
    ensures StrictInt(s) == Lexed(ParseI32(t[..NumberEnd(t)]), t[NumberEnd(t)..])
  {
    hide SkipStrict, ParseI32, IsSuffix, NumberEnd;
  }

  function Digits(n: int): string { Render(if n < 0 then -n else n) }

  lemma TokenParts(n: int, rest: string)
    ensures var t, from := RenderInt(n) + rest, if n < 0 then 1 else 0;
            && |RenderInt(n)| == from + |Digits(n)| > from && t[..|RenderInt(n)|] == RenderInt(n)
            && t[|RenderInt(n)|..] == rest && t[from..] == Digits(n) + rest && t[0] == RenderInt(n)[0]
  {
    hide Render;
  }

  lemma TokenSign(n: int)
    ensures RenderInt(n)[0] != '+' && (IsSign(RenderInt(n)[0]) <==> n < 0)
  {
  }

  lemma DigitsRead(n: int, rest: string)
    requires Ends(rest)
    ensures DigitsEnd(Digits(n) + rest) == |Digits(n)|
  {
    var ds := Digits(n);
    DigitsAre(n);
    assert forall i :: 0 <= i < |ds| ==> (ds + rest)[i] == ds[i];
    assert rest != [] ==> (ds + rest)[|ds|] == rest[0];
    hide Digits, DigitsEnd, IsDigit;
    DigitsThenEnd(ds + rest, |ds|);
  }

  lemma DigitsAre(n: int)
    ensures forall i :: 0 <= i < |Digits(n)| ==> IsDigit(Digits(n)[i])
  {
    hide IsDigit;
  }

  lemma IntAtIs(t: string, from: nat, end: nat)
    requires from < end <= |t| && t[0] != '+'
    ensures IntAt(t, from, end) == Lexed(ParseI32(t[..end]), t[end..])
  {
    hide ParseI32;
  }

  lemma SignEndIs(t: string)
    requires t != []
    ensures SignEnd(t) == if IsSign(t[0]) then 1 else 0
  {
  }

  lemma LooseIntOf(s: string, t: string, n: int, rest: string)
    requires SkipPlain(s) == t == RenderInt(n) + rest && Ends(rest)
    ensures LooseInt(s) == Lexed(ParseI32(RenderInt(n)), rest)
  {
    hide *;
    LooseIntIs(s);
    TokenParts(n, rest);
    TokenSign(n);
    SignEndIs(t);
    DigitsRead(n, rest);
    IntAtIs(t, SignEnd(t), |RenderInt(n)|);
  }

  // ---- Commands as text -----------------------------------------------------

  function Numbers(ns: seq<int>): string { if ns == [] then [] else " " + RenderInt(ns[0]) + Numbers(ns[1..]) }

  predicate AllFit(ns: seq<int>) { forall i :: 0 <= i < |ns| ==> FitsI32(ns[i]) }

  lemma NumbersEnd(ns: seq<int>, rest: string)
    requires Ends(rest)
    ensures Ends(Numbers(ns) + rest)
  {
    if ns == [] { assert Numbers(ns) + rest == rest; }
  }

  lemma NumbersUnfold(ns: seq<int>)
    ensures Numbers(ns) == if ns == [] then [] else " " + RenderInt(ns[0]) + Numbers(ns[1..])
  {
  }

  lemma OneSpace(n: int, rest: string)
    requires Ends(rest) && FitsI32(n)
    ensures StrictInt(" " + RenderInt(n) + rest) == LooseInt(" " + RenderInt(n) + rest) == Lexed(Some(n), rest)
  {
    hide RenderInt, StrictInt, LooseInt, FitsI32, Ends;
    LexersReadBack(" ", n, rest);
  }

  lemma FitsParts(ns: seq<int>)
    requires AllFit(ns) && ns != []
    ensures FitsI32(ns[0]) && AllFit(ns[1..])
  {
    hide FitsI32;
  }

  /** Printed numbers are read back, as many as are asked for. */
  lemma {:induction false} NumbersReadBack(ns: seq<int>, rest: string)
    requires AllFit(ns) && Ends(rest)
    ensures StrictInts(Numbers(ns) + rest, |ns|) == LooseInts(Numbers(ns) + rest, |ns|) == Lexed(Some(ns), rest)
  {
    hide *;
    var s := Numbers(ns) + rest;
    NumbersUnfold(ns);
    NoInts(s);
    if ns == [] {
      assert s == rest;
    } else {
      var more := Numbers(ns[1..]) + rest;
      NumbersEnd(ns[1..], rest);
      FitsParts(ns);
      assert s == " " + RenderInt(ns[0]) + more;
      OneSpace(ns[0], more);
      NumbersReadBack(ns[1..], rest);
      IntsStep(s, |ns|);
      assert [ns[0]] + ns[1..] == ns;
    }
  }

  // ---- Commands as text -----------------------------------------------------

  function Arguments(c: PathCommand): seq<int> {
    match c
    case MoveTo(x, y) => [x, y]
    case LineTo(x, y) => [x, y]
    case Cubic(c1x, c1y, c2x, c2y, x, y) => [c1x, c1y, c2x, c2y, x, y]
    case Close => []
  }

  function LetterOf(c: PathCommand): char {
    match c
    case MoveTo(_, _) => 'M'
    case LineTo(_, _) => 'L'
    case Cubic(_, _, _, _, _, _) => 'C'
    case Close => 'Z'
  }

  function Text(cs: seq<PathCommand>): string {
    if cs == [] then [] else [LetterOf(cs[0])] + Numbers(Arguments(cs[0])) + Text(cs[1..])
  }

  predicate Printable(cs: seq<PathCommand>) { forall i :: 0 <= i < |cs| ==> AllFit(Arguments(cs[i])) }

  lemma TextEnds(cs: seq<PathCommand>)
    ensures Ends(Text(cs))
  {
  }

  /** What the strict parser makes of one command. */
  function StrictMeaning(c: PathCommand, done: seq<SubPath>, cur: Option<SubPath>):
      Option<(seq<SubPath>, Option<SubPath>)> {
    match c
    case MoveTo(x, y) => Some((Flushed(done, cur), Some(SubPath(false, [Node(x, y, None, None)]))))
    case LineTo(x, y) =>
      if cur.None? then None else Some((done, Some(cur.value.(nodes := cur.value.nodes + [Node(x, y, None, None)]))))
    case Cubic(_, _, _, _, _, _) =>
      if cur.None? then None
      else
        var sub := WithCurve(cur.value, Arguments(c));
        if sub.None? then None else Some((done, sub))
    case Close => if cur.None? then None else Some((done, Some(cur.value.(closed := true))))
  }

  /** What the forgiving parser makes of it. */
  function LooseMeaning(c: PathCommand, done: seq<ParsedSubpath>, cur: Option<ParsedSubpath>):
      Option<(seq<ParsedSubpath>, Option<ParsedSubpath>)> {
    if c.MoveTo? then Some((Flushed(done, cur), Some(ParsedSubpath([c], false))))
    else if cur.None? then None
    else Some((done, Some(ParsedSubpath(cur.value.commands + [c], cur.value.closed || c.Close?))))
  }

  lemma StepReads(c: PathCommand, rest: string, done: seq<SubPath>, cur: Option<SubPath>,
                  loose: seq<ParsedSubpath>, open: Option<ParsedSubpath>)
    requires AllFit(Arguments(c)) && Ends(rest)
    ensures var s, m := Numbers(Arguments(c)) + rest, StrictMeaning(c, done, cur);
            StrictStep(LetterOf(c), s, done, cur) == if m.None? then None else Some((rest, m.value.0, m.value.1))
    ensures var s, m := Numbers(Arguments(c)) + rest, LooseMeaning(c, loose, open);
            LooseStep(LetterOf(c), s, loose, open) == if m.None? then None else Some((rest, m.value.0, m.value.1))
  {
    hide StrictInts, LooseInts, WithCurve, AllFit, Ends, Numbers;
    NumbersReadBack(Arguments(c), rest);
    if c.Close? {
      NumbersUnfold([]);
      assert Numbers([]) + rest == rest;
    }
  }

  // ---- Whole texts ----------------------------------------------------------

  /** Where the strict parser is after some commands; `None` once it has refused one. */
  function StrictState(cs: seq<PathCommand>, done: seq<SubPath>, cur: Option<SubPath>):
      Option<(seq<SubPath>, Option<SubPath>)> {
    if cs == [] then Some((done, cur))
    else
      match StrictMeaning(cs[0], done, cur)
      case None => None
      case Some((d, k)) => StrictState(cs[1..], d, k)
  }

  /** Where the forgiving parser is, and whether it has met no command it cannot carry out. */
  function LooseState(cs: seq<PathCommand>, done: seq<ParsedSubpath>, cur: Option<ParsedSubpath>):
      (seq<ParsedSubpath>, Option<ParsedSubpath>, bool) {
    if cs == [] then (done, cur, true)
    else
      match LooseMeaning(cs[0], done, cur)
      case None => (done, cur, false)
      case Some((d, k)) => LooseState(cs[1..], d, k)
  }

  lemma LetterIsLetter(c: PathCommand)
    ensures IsLetter(LetterOf(c))
  {
  }

  lemma TextUnfold(cs: seq<PathCommand>)
    ensures Text(cs) == if cs == [] then [] else [LetterOf(cs[0])] + Numbers(Arguments(cs[0])) + Text(cs[1..])
  {
  }

  lemma EndsAppended(s: string, tail: string)
    requires Ends(s) && Ends(tail)
    ensures Ends(s + tail)
  {
    if s == [] { assert s + tail == tail; }
  }

  lemma StrictUnfold(s: string, c: char, t: string, done: seq<SubPath>, cur: Option<SubPath>)
    requires StrictCommand(s) == Lexed(Letter(c), t)
    ensures StrictParse(s, done, cur)
         == match StrictStep(c, t, done, cur) case None => Err case Some((u, d, k)) => StrictParse(u, d, k)
  {
    hide StrictStep, StrictCommand;
  }

  lemma LooseUnfold(s: string, c: char, t: string, done: seq<ParsedSubpath>, cur: Option<ParsedSubpath>)
    requires LooseCommand(s) == Lexed(Some(c), t)
    ensures LooseParse(s, done, cur)
         == match LooseStep(c, t, done, cur) case None => Flushed(done, cur) case Some((u, d, k)) => LooseParse(u, d, k)
  {
    hide LooseStep, LooseCommand;
  }

  lemma StateUnfolds(cs: seq<PathCommand>, done: seq<SubPath>, cur: Option<SubPath>, loose: seq<ParsedSubpath>,
                     open: Option<ParsedSubpath>)
    ensures StrictState(cs, done, cur)
         == if cs == [] then Some((done, cur))
            else
              match StrictMeaning(cs[0], done, cur)
              case None => None
              case Some((d, k)) => StrictState(cs[1..], d, k)
    ensures LooseState(cs, loose, open)
         == if cs == [] then (loose, open, true)
            else
              match LooseMeaning(cs[0], loose, open)
              case None => (loose, open, false)
              case Some((d, k)) => LooseState(cs[1..], d, k)
  {
    hide StrictMeaning, LooseMeaning;
  }

  /** The head of a printed list, as the lexers find it. */
  lemma HeadReads(cs: seq<PathCommand>, tail: string)
    requires cs != [] && Printable(cs) && Ends(tail)
    ensures var args := Numbers(Arguments(cs[0])) + (Text(cs[1..]) + tail);
            && StrictCommand(Text(cs) + tail) == Lexed(Letter(LetterOf(cs[0])), args)
            && LooseCommand(Text(cs) + tail) == Lexed(Some(LetterOf(cs[0])), args)
    ensures AllFit(Arguments(cs[0])) && Ends(Text(cs[1..]) + tail) && Printable(cs[1..])
  {
    hide *;
    PrintableParts(cs);
    TextUnfold(cs);
    var l, ns, t := [LetterOf(cs[0])], Numbers(Arguments(cs[0])), Text(cs[1..]);
    TextEnds(cs[1..]);
    EndsAppended(t, tail);
    LetterIsLetter(cs[0]);
    LetterToken(LetterOf(cs[0]), ns + (t + tail));
    Regrouped(l, ns, t, tail);
  }

  lemma Regrouped(a: string, b: string, c: string, d: string)
    ensures (a + b + c) + d == a + (b + (c + d))
  {
  }

  lemma PrintableParts(cs: seq<PathCommand>)
    requires cs != [] && Printable(cs)
    ensures AllFit(Arguments(cs[0])) && Printable(cs[1..])
  {
    hide AllFit, Arguments;
  }

  /** Printed commands take the strict parser where they mean to. */
  lemma {:induction false} StrictReads(cs: seq<PathCommand>, tail: string, done: seq<SubPath>, cur: Option<SubPath>)
    requires Printable(cs) && Ends(tail)
    ensures StrictParse(Text(cs) + tail, done, cur)
         == match StrictState(cs, done, cur) case None => Err case Some((d, k)) => StrictParse(tail, d, k)
  {
    hide *;
    StateUnfolds(cs, done, cur, [], None);
    TextUnfold(cs);
    if cs == [] {
      assert Text(cs) + tail == tail;
    } else {
      var more := Text(cs[1..]) + tail;
      HeadReads(cs, tail);
      StepReads(cs[0], more, done, cur, [], None);
      StrictUnfold(Text(cs) + tail, LetterOf(cs[0]), Numbers(Arguments(cs[0])) + more, done, cur);
      var m := StrictMeaning(cs[0], done, cur);
      if m.Some? { StrictReads(cs[1..], tail, m.value.0, m.value.1); }
    }
  }

  /** And the forgiving one, which stops at the first command it cannot carry out. */
  lemma {:induction false} LooseReads(cs: seq<PathCommand>, tail: string, done: seq<ParsedSubpath>,
                                      cur: Option<ParsedSubpath>)
    requires Printable(cs) && Ends(tail)
    ensures var (d, k, ok) := LooseState(cs, done, cur);
            LooseParse(Text(cs) + tail, done, cur) == if ok then LooseParse(tail, d, k) else Flushed(d, k)
  {
    hide *;
    StateUnfolds(cs, [], None, done, cur);
    TextUnfold(cs);
    if cs == [] {
      assert Text(cs) + tail == tail;
    } else {
      var more := Text(cs[1..]) + tail;
      HeadReads(cs, tail);
      StepReads(cs[0], more, [], None, done, cur);
      LooseUnfold(Text(cs) + tail, LetterOf(cs[0]), Numbers(Arguments(cs[0])) + more, done, cur);
      var m := LooseMeaning(cs[0], done, cur);
      if m.Some? { LooseReads(cs[1..], tail, m.value.0, m.value.1); }
    }
  }

  // ---- Contours -------------------------------------------------------------

  /** The commands that draw a contour. */
  function Contour(sub: SubPath): seq<PathCommand> { Absolute(sub.nodes) + if sub.closed then [Close] else [] }

  function Commands(subs: seq<SubPath>): seq<PathCommand> {
    if subs == [] then [] else Commands(subs[..|subs| - 1]) + Contour(subs[|subs| - 1])
  }

  predicate HandleFits(h: Option<Handle>) { h.Some? ==> FitsI32(h.value.dx) && FitsI32(h.value.dy) }

  /** A contour both parsers can hold: handles in pairs, and no offset outside the 32-bit range. */
  predicate Drawable(sub: SubPath) {
    Paired(sub.nodes) && forall i :: 0 <= i < |sub.nodes| ==> NodeFits(sub.nodes[i])
  }

  predicate NodeFits(p: Node) { HandleFits(p.inHandle) && HandleFits(p.outHandle) }

  predicate AllDrawable(subs: seq<SubPath>) { forall i :: 0 <= i < |subs| ==> Drawable(subs[i]) }

  /** The first `k` nodes, the last of them without the handle a later curve gives it. */
  function Begun(nodes: seq<Node>, k: nat): seq<Node>
    requires 1 <= k <= |nodes|
  {
    nodes[..k - 1] + [nodes[k - 1].(outHandle := None)]
  }

  lemma StrictAppend(a: seq<PathCommand>, c: PathCommand, done: seq<SubPath>, cur: Option<SubPath>)
    requires StrictState(a, done, cur).Some?
    ensures var (d, k) := StrictState(a, done, cur).value; StrictState(a + [c], done, cur) == StrictMeaning(c, d, k)
    decreases |a|
  {
    hide StrictMeaning;
    if a == [] {
      assert a + [c] == [c] && [c][1..] == [];
    } else {
      StrictAppend(a[1..], c, StrictMeaning(a[0], done, cur).value.0, StrictMeaning(a[0], done, cur).value.1);
      assert (a + [c])[1..] == a[1..] + [c];
    }
  }

  lemma LooseAppend(a: seq<PathCommand>, c: PathCommand, done: seq<ParsedSubpath>, cur: Option<ParsedSubpath>)
    requires LooseState(a, done, cur).2
    ensures var (d, k, _) := LooseState(a, done, cur);
            LooseState(a + [c], done, cur)
              == match LooseMeaning(c, d, k) case None => (d, k, false) case Some((d', k')) => (d', k', true)
    decreases |a|
  {
    hide LooseMeaning;
    if a == [] {
      assert a + [c] == [c] && [c][1..] == [];
    } else {
      LooseAppend(a[1..], c, LooseMeaning(a[0], done, cur).value.0, LooseMeaning(a[0], done, cur).value.1);
      assert (a + [c])[1..] == a[1..] + [c];
    }
  }

  /** The next segment of a contour. */
  lemma NextSegment(nodes: seq<Node>, k: nat, done: seq<SubPath>)
    requires 1 <= k < |nodes| && Paired(nodes) && forall i :: 0 <= i < |nodes| ==> NodeFits(nodes[i])
    ensures StrictMeaning(CommandAt(nodes, k), done, Some(SubPath(false, Begun(nodes, k))))
         == Some((done, Some(SubPath(false, Begun(nodes, k + 1)))))
  {
    assert NodeFits(nodes[k]) && NodeFits(nodes[k - 1]);
    hide FitsI32;
    var sub := SubPath(false, Begun(nodes, k));
    if nodes[k].inHandle.Some? {
      var r := WithCurve(sub, Arguments(CommandAt(nodes, k)));
      assert r.Some? && r.value.nodes == Begun(nodes, k + 1);
    } else {
      assert nodes[k - 1].(outHandle := None) == nodes[k - 1];
      assert sub.nodes + [Node(nodes[k].x, nodes[k].y, None, None)] == Begun(nodes, k + 1);
    }
  }

  /** Reading the segments up to node `k`. */
  lemma {:induction false} StrictBegins(before: seq<PathCommand>, nodes: seq<Node>, k: nat, done: seq<SubPath>,
                                        done': seq<SubPath>, cur: Option<SubPath>, cur': Option<SubPath>)
    requires 1 <= k <= |nodes| && Paired(nodes) && forall i :: 0 <= i < |nodes| ==> NodeFits(nodes[i])
    requires StrictState(before, done, cur) == Some((done', cur'))
    ensures StrictState(before + Absolute(nodes)[..k], done, cur)
         == Some((Flushed(done', cur'), Some(SubPath(false, Begun(nodes, k)))))
  {
    var cs := Absolute(nodes);
    hide NodeFits, StrictState;
    assert cs[..k] == cs[..k - 1] + [CommandAt(nodes, k - 1)];
    assert before + cs[..k] == (before + cs[..k - 1]) + [CommandAt(nodes, k - 1)];
    if k == 1 {
      assert before + cs[..0] == before;
      assert Begun(nodes, 1) == [Node(nodes[0].x, nodes[0].y, None, None)];
      StrictAppend(before, CommandAt(nodes, 0), done, cur);
    } else {
      StrictBegins(before, nodes, k - 1, done, done', cur, cur');
      StrictAppend(before + cs[..k - 1], CommandAt(nodes, k - 1), done, cur);
      hide StrictMeaning, Paired, Begun;
      NextSegment(nodes, k - 1, Flushed(done', cur'));
    }
  }

  /** The forgiving form of a contour. */
  function LooseForm(sub: SubPath): ParsedSubpath { ParsedSubpath(Contour(sub), sub.closed) }

  lemma {:induction false} LooseBegins(before: seq<PathCommand>, nodes: seq<Node>, k: nat, done: seq<ParsedSubpath>,
                                       done': seq<ParsedSubpath>, cur: Option<ParsedSubpath>,
                                       cur': Option<ParsedSubpath>)
    requires 1 <= k <= |nodes| && LooseState(before, done, cur) == (done', cur', true)
    ensures LooseState(before + Absolute(nodes)[..k], done, cur)
         == (Flushed(done', cur'), Some(ParsedSubpath(Absolute(nodes)[..k], false)), true)
  {
    var cs := Absolute(nodes);
    hide LooseState;
    assert cs[..k] == cs[..k - 1] + [CommandAt(nodes, k - 1)];
    assert before + cs[..k] == (before + cs[..k - 1]) + [CommandAt(nodes, k - 1)];
    if k == 1 {
      assert before + cs[..0] == before && cs[..0] + [CommandAt(nodes, 0)] == [CommandAt(nodes, 0)];
      LooseAppend(before, CommandAt(nodes, 0), done, cur);
    } else {
      LooseBegins(before, nodes, k - 1, done, done', cur, cur');
      LooseAppend(before + cs[..k - 1], CommandAt(nodes, k - 1), done, cur);
    }
  }

  lemma BegunAll(nodes: seq<Node>)
    requires Paired(nodes)
    ensures Begun(nodes, |nodes|) == nodes && Absolute(nodes)[..|nodes|] == Absolute(nodes)
  {
    var n := |nodes| - 1;
    assert nodes == nodes[..n] + [nodes[n]];
    hide CommandAt;
  }

  lemma ContourReads(before: seq<PathCommand>, sub: SubPath, done: seq<SubPath>, cur: Option<SubPath>,
                     loose: seq<ParsedSubpath>, open: Option<ParsedSubpath>)
    requires Drawable(sub) && StrictState(before, [], None) == Some((done, cur))
    requires LooseState(before, [], None) == (loose, open, true)
    ensures StrictState(before + Contour(sub), [], None) == Some((Flushed(done, cur), Some(sub)))
    ensures LooseState(before + Contour(sub), [], None) == (Flushed(loose, open), Some(LooseForm(sub)), true)
  {
    var cs := Absolute(sub.nodes);
    BegunAll(sub.nodes);
    StrictBegins(before, sub.nodes, |sub.nodes|, [], done, None, cur);
    LooseBegins(before, sub.nodes, |sub.nodes|, [], loose, None, open);
    hide Absolute, Begun, StrictState, LooseState, Paired;
    if sub.closed {
      StrictAppend(before + cs, Close, [], None);
      LooseAppend(before + cs, Close, [], None);
      assert before + Contour(sub) == (before + cs) + [Close];
    } else {
      assert Contour(sub) == cs;
    }
  }

  function LooseForms(subs: seq<SubPath>): seq<ParsedSubpath> {
    seq(|subs|, i requires 0 <= i < |subs| => LooseForm(subs[i]))
  }

  /** The states after the commands of some contours: the last one open, the others done. */
  lemma {:induction false} ContoursRead(subs: seq<SubPath>)
    requires AllDrawable(subs)
    ensures var n := |subs| - 1;
            StrictState(Commands(subs), [], None) == Some(if subs == [] then ([], None) else (subs[..n], Some(subs[n])))
    ensures var n := |subs| - 1;
            LooseState(Commands(subs), [], None)
              == if subs == [] then ([], None, true) else (LooseForms(subs[..n]), Some(LooseForm(subs[n])), true)
  {
    hide Drawable, Contour, LooseForm;
    if subs != [] {
      var n := |subs| - 1;
      var front := subs[..n];
      ContoursRead(front);
      var (done, cur) := if front == [] then ([], None) else (front[..n - 1], Some(front[n - 1]));
      var (loose, open) :=
        if front == [] then ([], None) else (LooseForms(front[..n - 1]), Some(LooseForm(front[n - 1])));
      hide StrictState, LooseState;
      ContourReads(Commands(front), subs[n], done, cur, loose, open);
      assert Flushed(done, cur) == front && Flushed(loose, open) == LooseForms(front);
    }
  }

  lemma NothingLeft(subs: seq<SubPath>)
    requires subs != []
    ensures var n := |subs| - 1;
            && StrictParse("", subs[..n], Some(subs[n])) == Ok(subs)
            && LooseParse("", LooseForms(subs[..n]), Some(LooseForm(subs[n]))) == LooseForms(subs)
  {
    hide LooseForm;
    var n := |subs| - 1;
    assert subs[..n] + [subs[n]] == subs && LooseForms(subs[..n]) + [LooseForm(subs[n])] == LooseForms(subs);
  }

  /** Printed contours read back from both parsers: the same nodes, handles and closed flags from the strict one,
      the same commands from the forgiving one. */
  lemma PrintedPathReadsBack(subs: seq<SubPath>)
    requires subs != [] && AllDrawable(subs) && Printable(Commands(subs))
    ensures StrictParse(Text(Commands(subs)), [], None) == Ok(subs)
    ensures LooseParse(Text(Commands(subs)), [], None) == LooseForms(subs)
  {
    hide *;
    var cs := Commands(subs);
    ContoursRead(subs);
    NothingEnds();
    StrictReads(cs, "", [], None);
    LooseReads(cs, "", [], None);
    NothingLeft(subs);
    assert Text(cs) + "" == Text(cs);
  }

  lemma NothingEnds()
    ensures Ends("")
  {
  }

  predicate IsStray(c: char) { !IsLetter(c) && !IsSeparator(c) && !NumberChar(c) }

  lemma StrayStops(tail: string, done: seq<SubPath>, cur: Option<SubPath>, loose: seq<ParsedSubpath>,
                   open: Option<ParsedSubpath>)
    requires tail != [] && IsStray(tail[0])
    ensures Ends(tail) && StrictParse(tail, done, cur) == Err && LooseParse(tail, loose, open) == Flushed(loose, open)
  {
    PlainIsSeparator(tail[0]);
    hide IsLetter, IsSeparator, IsPlainSeparator, NumberChar;
  }

  /** A stray character after a printed path: the strict parser refuses the text, the forgiving one answers with
      the path. */
  lemma StrayTail(subs: seq<SubPath>, tail: string)
    requires subs != [] && AllDrawable(subs) && Printable(Commands(subs)) && tail != [] && IsStray(tail[0])
    ensures StrictParse(Text(Commands(subs)) + tail, [], None) == Err
    ensures LooseParse(Text(Commands(subs)) + tail, [], None) == LooseForms(subs)
  {
    hide *;
    var cs, n := Commands(subs), |subs| - 1;
    ContoursRead(subs);
    StrayStops(tail, subs[..n], Some(subs[n]), LooseForms(subs[..n]), Some(LooseForm(subs[n])));
    StrictReads(cs, tail, [], None);
    LooseReads(cs, tail, [], None);
    NothingLeft(subs);
    FlushedForms(subs);
  }

  lemma FlushedForms(subs: seq<SubPath>)
    requires subs != []
    ensures var n := |subs| - 1; Flushed(LooseForms(subs[..n]), Some(LooseForm(subs[n]))) == LooseForms(subs)
  {
    hide LooseForm;
  }

  // ---- What is refused ------------------------------------------------------

  /** The strict parser knows four letters. */
  lemma LettersKnown(c: char, s: string, done: seq<SubPath>, cur: Option<SubPath>)
    requires c !in "MLCZ"
    ensures StrictStep(c, s, done, cur).None?
  {
    hide StrictInts, WithCurve;
  }

  /** The forgiving parser knows the same four in either case, and both cases mean the same. */
  lemma SmallLettersToo(c: char, s: string, loose: seq<ParsedSubpath>, open: Option<ParsedSubpath>)
    ensures c !in "MLCZmlcz" ==> LooseStep(c, s, loose, open).None?
    ensures c in "MLCZ" ==> LooseStep((c as int + 32) as char, s, loose, open) == LooseStep(c, s, loose, open)
  {
    hide LooseInts, Flushed, IsSuffix;
  }

  /** Where the pen is before command `i`: at the end of the last segment, closes left aside. */
  function PenBefore(cs: seq<PathCommand>, i: nat): (int, int)
    requires i <= |cs|
  {
    if i == 0 then (0, 0)
    else
      match cs[i - 1]
      case MoveTo(x, y) => (x, y)
      case LineTo(x, y) => (x, y)
      case Cubic(_, _, _, _, x, y) => (x, y)
      case Close => PenBefore(cs, i - 1)
  }

  /** The controls of curve `i` are no farther from its ends than 32 bits hold. */
  predicate OffsetsFit(cs: seq<PathCommand>, i: nat)
    requires i < |cs|
  {
    cs[i].Cubic? ==>
      var (c, pen) := (cs[i], PenBefore(cs, i));
      FitsI32(c.c1x - pen.0) && FitsI32(c.c1y - pen.1) && FitsI32(c.c2x - c.x) && FitsI32(c.c2y - c.y)
  }

  ghost predicate Accepted(cs: seq<PathCommand>, k: nat)
    requires k <= |cs|
  {
    (k > 0 ==> cs[0].MoveTo?) && forall i :: 0 <= i < k ==> OffsetsFit(cs, i)
  }

  lemma NothingRun(done: seq<SubPath>, cur: Option<SubPath>)
    ensures StrictState([], done, cur) == Some((done, cur))
  {
  }

  /** The contour is begun and its last node is at the pen. */
  predicate PenAt(cur: Option<SubPath>, pen: (int, int)) {
    cur.Some? && cur.value.nodes != []
    && (cur.value.nodes[|cur.value.nodes| - 1].x, cur.value.nodes[|cur.value.nodes| - 1].y) == pen
  }

  lemma StepAccepts(cs: seq<PathCommand>, i: nat, done: seq<SubPath>, cur: Option<SubPath>)
    requires i < |cs| && (if i == 0 then cur.None? else PenAt(cur, PenBefore(cs, i)))
    ensures StrictMeaning(cs[i], done, cur).Some? <==> (i == 0 ==> cs[0].MoveTo?) && OffsetsFit(cs, i)
    ensures StrictMeaning(cs[i], done, cur).Some? ==>
              PenAt(StrictMeaning(cs[i], done, cur).value.1, PenBefore(cs, i + 1))
  {
    hide FitsI32;
  }

  lemma AcceptedStep(cs: seq<PathCommand>, k: nat)
    requires k < |cs|
    ensures Accepted(cs, k + 1) <==> Accepted(cs, k) && (k == 0 ==> cs[0].MoveTo?) && OffsetsFit(cs, k)
  {
    hide OffsetsFit;
  }

  /** The strict parser gets through the first `k` commands exactly when the first moves and all offsets fit. */
  lemma {:induction false} StateAt(cs: seq<PathCommand>, k: nat)
    requires k <= |cs|
    ensures StrictState(cs[..k], [], None).Some? <==> Accepted(cs, k)
    ensures StrictState(cs[..k], [], None).Some? ==>
              var cur := StrictState(cs[..k], [], None).value.1;
              if k == 0 then cur.None? else PenAt(cur, PenBefore(cs, k))
  {
    hide FitsI32, StrictState, OffsetsFit, PenAt, PenBefore, StrictMeaning;
    if k == 0 {
      assert cs[..0] == [];
      NothingRun([], None);
    } else {
      StateAt(cs, k - 1);
      AcceptedStep(cs, k - 1);
      assert cs[..k] == cs[..k - 1] + [cs[k - 1]];
      var before := StrictState(cs[..k - 1], [], None);
      if before.Some? {
        StrictAppend(cs[..k - 1], cs[k - 1], [], None);
        StepAccepts(cs, k - 1, before.value.0, before.value.1);
      } else {
        RefusedStays(cs[..k - 1], cs[k - 1], [], None);
      }
    }
  }

  lemma RefusedStays(a: seq<PathCommand>, c: PathCommand, done: seq<SubPath>, cur: Option<SubPath>)
    requires StrictState(a, done, cur).None?
    ensures StrictState(a + [c], done, cur).None?
    decreases |a|
  {
    hide StrictMeaning;
    if a != [] && StrictMeaning(a[0], done, cur).Some? {
      RefusedStays(a[1..], c, StrictMeaning(a[0], done, cur).value.0, StrictMeaning(a[0], done, cur).value.1);
      assert (a + [c])[1..] == a[1..] + [c];
    } else if a != [] {
      assert (a + [c])[0] == a[0];
    }
  }

  /** A printed list of commands is accepted by the strict parser if and only if it starts with a move and no
      curve has a control too far from its end. */
  lemma AcceptedIff(cs: seq<PathCommand>)
    requires Printable(cs)
    ensures StrictParse(Text(cs), [], None).Ok? <==> cs != [] && Accepted(cs, |cs|)
  {
    hide *;
    StateAt(cs, |cs|);
    assert cs[..|cs|] == cs;
    NothingEnds();
    StrictReads(cs, "", [], None);
    assert Text(cs) + "" == Text(cs);
    if StrictState(cs, [], None).Some? {
      var (d, k) := StrictState(cs, [], None).value;
      EndIs(d, k);
      if cs == [] { NothingRun([], None); } else { PenIs(k, PenBefore(cs, |cs|)); }
    }
  }

  lemma PenIs(cur: Option<SubPath>, pen: (int, int))
    requires PenAt(cur, pen)
    ensures cur.Some?
  {
  }

  lemma EndIs(done: seq<SubPath>, cur: Option<SubPath>)
    ensures StrictParse("", done, cur).Ok? <==> done != [] || cur.Some?
  {
  }
}
