/** The two parsers of one path grammar: the strict `parse_path_d`
    (crates/renderer-core/src/render_object.rs), which keeps curve handles relative to their nodes, and
    the forgiving `parse_path` (crates/renderer-core/src/tessellate.rs), which keeps them absolute. */
module PathParsers {
  import opened Sequences
  import opened Decimal

  // ---- Characters -----------------------------------------------------------

  predicate IsLetter(c: char) { 'a' <= c <= 'z' || 'A' <= c <= 'Z' }

  const SMALL_LETTERS: string := "abcdefghijklmnopqrstuvwxyz"
  const CAPITALS: string := "ABCDEFGHIJKLMNOPQRSTUVWXYZ"

  lemma LettersAre(c: char)
    ensures IsLetter(c) <==> c in SMALL_LETTERS || c in CAPITALS
  {
    SmallLettersAre(c);
    CapitalsAre(c);
    hide SMALL_LETTERS, CAPITALS;
  }

  lemma SmallLettersAre(c: char)
    ensures 'a' <= c <= 'z' <==> c in SMALL_LETTERS
  {
    assert forall i :: 0 <= i < 26 ==> SMALL_LETTERS[i] as int == 97 + i;
    if 'a' <= c <= 'z' { assert SMALL_LETTERS[c as int - 97] == c; }
  }

  lemma CapitalsAre(c: char)
    ensures 'A' <= c <= 'Z' <==> c in CAPITALS
  {
    assert forall i :: 0 <= i < 26 ==> CAPITALS[i] as int == 65 + i;
    if 'A' <= c <= 'Z' { assert CAPITALS[c as int - 65] == c; }
  }

  predicate IsSign(c: char) { c == '-' || c == '+' }

  /** What the forgiving parser skips. */
  predicate IsPlainSeparator(c: char) { c == ' ' || c == '\t' || c == '\n' || c == '\r' || c == ',' }

  /** The Unicode property White_Space. */
  predicate IsWhiteSpace(c: char) {
    var n := c as int;
    0x9 <= n <= 0xD || n == 0x20 || n == 0x85 || n == 0xA0 || n == 0x1680 || 0x2000 <= n <= 0x200A || n == 0x2028
    || n == 0x2029
    || n == 0x202F || n == 0x205F || n == 0x3000
  }

  const WHITE_SPACE: string :=
    "\t\n\U{B}\U{C}\r \U{85}\U{A0}\U{1680}\U{2000}\U{2001}\U{2002}\U{2003}\U{2004}\U{2005}\U{2006}\U{2007}" +
    "\U{2008}\U{2009}\U{200A}\U{2028}\U{2029}\U{202F}\U{205F}\U{3000}"

  /** The separators both parsers skip: ASCII white space but for vertical tab and form feed, and the comma. */
  lemma SeparatorsAre(c: char)
    ensures IsWhiteSpace(c) <==> c in WHITE_SPACE
    ensures IsPlainSeparator(c) <==> c == ',' || (IsWhiteSpace(c) && c < 128 as char && c != '\U{B}' && c != '\U{C}')
  {
    WhiteSpaceIs(c);
    hide WHITE_SPACE;
  }

  lemma WhiteSpaceIs(c: char)
    ensures IsWhiteSpace(c) <==> c in WHITE_SPACE
  {
    var w := WHITE_SPACE;
    assert |w| == 25 && w[6] == '\U{85}' && w[7] == '\U{A0}' && w[8] == '\U{1680}';
    assert w[19] == '\U{200A}' && w[20] == '\U{2028}' && w[21] == '\U{2029}' && w[22] == '\U{202F}';
    assert w[23] == '\U{205F}' && w[24] == '\U{3000}';
    assert forall i :: 0 <= i < 5 ==> w[i] == (0x9 + i) as char;
    assert w[5] == ' ' && forall i :: 9 <= i < 20 ==> w[i] == (0x2000 + i - 9) as char;
    if 0x9 <= c as int <= 0xD { assert w[c as int - 0x9] == c; }
    if 0x2000 <= c as int <= 0x200A { assert w[c as int - 0x2000 + 9] == c; }
  }

  /** What the strict parser skips. */
  predicate IsSeparator(c: char) { IsWhiteSpace(c) || c == ',' }

  /** All white space in `s` is of the kind both parsers skip. */
  predicate Plain(s: string) { forall i :: 0 <= i < |s| ==> (IsSeparator(s[i]) ==> IsPlainSeparator(s[i])) }

  // ---- Lexing, on what is left of the text ----------------------------------

  predicate IsSuffix(t: string, s: string) { |t| <= |s| && t == s[|s| - |t|..] }

  function SkipStrict(s: string): (r: string)
    ensures IsSuffix(r, s) && (r == [] || !IsSeparator(r[0]))
  {
    if s != [] && IsSeparator(s[0]) then SkipStrict(s[1..]) else s
  }

  function SkipPlain(s: string): (r: string)
    ensures IsSuffix(r, s) && (r == [] || !IsPlainSeparator(r[0]))
  {
    if s != [] && IsPlainSeparator(s[0]) then SkipPlain(s[1..]) else s
  }

  datatype Lexed<T> = Lexed(value: T, rest: string)

  datatype Command = End | Letter(c: char) | Stray

  function StrictCommand(s: string): (r: Lexed<Command>)
    ensures IsSuffix(r.rest, s) && (r.value.Letter? ==> |r.rest| < |s|)
  {
    var t := SkipStrict(s);
    if t == [] then Lexed(End, t) else if IsLetter(t[0]) then Lexed(Letter(t[0]), t[1..]) else Lexed(Stray, t)
  }

  /** End of input and a stray character look the same. */
  function LooseCommand(s: string): (r: Lexed<Option<char>>)
    ensures IsSuffix(r.rest, s) && (r.value.Some? ==> |r.rest| < |s|)
  {
    var t := SkipPlain(s);
    if t != [] && IsLetter(t[0]) then Lexed(Some(t[0]), t[1..]) else Lexed(None, t)
  }

  /** How many leading characters could belong to a number. */
  function NumberEnd(s: string): (n: nat)
    ensures n <= |s| && forall i :: 0 <= i < n ==> IsDigit(s[i]) || IsSign(s[i])
    ensures n < |s| ==> !IsDigit(s[n]) && !IsSign(s[n])
  {
    if s != [] && (IsDigit(s[0]) || IsSign(s[0])) then 1 + NumberEnd(s[1..]) else 0
  }

  function DigitsEnd(s: string): (n: nat)
    ensures n <= |s| && forall i :: 0 <= i < n ==> IsDigit(s[i])
    ensures n < |s| ==> !IsDigit(s[n])
  {
    if s != [] && IsDigit(s[0]) then 1 + DigitsEnd(s[1..]) else 0
  }

  function DigitValue(c: char): nat
    requires IsDigit(c)
  {
    (c - '0') as nat
  }

  function Value(ds: string): nat
    requires forall i :: 0 <= i < |ds| ==> IsDigit(ds[i])
  {
    if ds == [] then 0 else Value(ds[..|ds| - 1]) * 10 + DigitValue(ds[|ds| - 1])
  }

  /** `v` with `n` zeros after it, in decimal. */
  function Shifted(v: nat, n: nat): nat { if n == 0 then v else 10 * Shifted(v, n - 1) }

  /** Decimal notation: what comes later counts for less, by one power of ten a place. */
  lemma {:induction false} ValueIsPositional(a: string, b: string)
    requires (forall i :: 0 <= i < |a| ==> IsDigit(a[i])) && (forall i :: 0 <= i < |b| ==> IsDigit(b[i]))
    ensures Value(a + b) == Shifted(Value(a), |b|) + Value(b)
  {
    hide Value, DigitValue, IsDigit;
    if b == [] {
      assert a + b == a;
      NoDigits();
    } else {
      var n := |b| - 1;
      ValueIsPositional(a, b[..n]);
      ValueSnoc(a + b[..n], b[n]);
      ValueSnoc(b[..n], b[n]);
      assert a + b == a + b[..n] + [b[n]] && b == b[..n] + [b[n]];
    }
  }

  lemma NoDigits()
    ensures Value("") == 0
  {
  }

  lemma OneDigit(c: char)
    requires IsDigit(c)
    ensures Value([c]) as int == c as int - 48
  {
    ValueSnoc("", c);
    assert "" + [c] == [c];
  }

  lemma ValueSnoc(ds: string, c: char)
    requires IsDigit(c) && forall i :: 0 <= i < |ds| ==> IsDigit(ds[i])
    ensures Value(ds + [c]) == Value(ds) * 10 + DigitValue(c)
    ensures ds == "" ==> Value(ds + [c]) == c as int - 48
  {
    assert (ds + [c])[..|ds|] == ds;
  }

  predicate FitsI32(n: int): (r: bool)
    ensures r <==> -2147483648 <= n <= 2147483647
  {
    -0x8000_0000 <= n < 0x8000_0000
  }

  /** A whole token as a signed 32-bit integer: at most one sign, then digits. */
  function ParseI32(s: string): Option<int> {
    var signed := s != [] && IsSign(s[0]);
    var ds := if signed then s[1..] else s;
    if ds == [] || DigitsEnd(ds) != |ds| then None
    else
      var v: int := Value(ds);
      var n := if signed && s[0] == '-' then -v else v;
      if FitsI32(n) then Some(n) else None
  }

  /** The longest run of digits and signs, which must be one integer. */
  function StrictInt(s: string): (r: Lexed<Option<int>>)
    ensures IsSuffix(r.rest, s)
  {
    var t := SkipStrict(s);
    var end := NumberEnd(t);
    if end == 0 then Lexed(None, t) else Lexed(ParseI32(t[..end]), t[end..])
  }

  function SignEnd(t: string): nat { if t != [] && IsSign(t[0]) then 1 else 0 }

  /** The integer of a token whose digits run from `from` to `end`; a leading plus is dropped. */
  function IntAt(t: string, from: nat, end: nat): Lexed<Option<int>>
    requires from <= end <= |t|
  {
    if end == from then Lexed(None, t)
    else Lexed(ParseI32(if t[0] == '+' then t[1..end] else t[..end]), t[end..])
  }

  /** One optional sign and the digits after it; without digits nothing is consumed. */
  function LooseInt(s: string): (r: Lexed<Option<int>>)
    ensures IsSuffix(r.rest, s)
  {
    var t := SkipPlain(s);
    IntAt(t, SignEnd(t), SignEnd(t) + DigitsEnd(t[SignEnd(t)..]))
  }

  /** What was read of `s` when `t` is left. */
  function Consumed(s: string, t: string): string
    requires |t| <= |s|
  {
    s[..|s| - |t|]
  }

  lemma PlainConcat(a: string, b: string)
    ensures Plain(a + b) <==> Plain(a) && Plain(b)
  {
    if Plain(a + b) {
      forall i | 0 <= i < |a| ensures IsSeparator(a[i]) ==> IsPlainSeparator(a[i]) { assert (a + b)[i] == a[i]; }
      forall i | 0 <= i < |b| ensures IsSeparator(b[i]) ==> IsPlainSeparator(b[i]) { assert (a + b)[|a| + i] == b[i]; }
    }
    hide IsSeparator, IsPlainSeparator;
  }

  /** Reading on: what is read in two goes is read in one. */
  lemma ConsumedTwice(s: string, t: string, u: string)
    requires IsSuffix(t, s) && IsSuffix(u, t)
    ensures IsSuffix(u, s) && Consumed(s, u) == Consumed(s, t) + Consumed(t, u) && s == Consumed(s, t) + t
    ensures Plain(Consumed(s, u)) <==> Plain(Consumed(s, t)) && Plain(Consumed(t, u))
  {
    PlainConcat(Consumed(s, t), Consumed(t, u));
    hide Plain;
  }

  /** Both lexers skip alike when the strict one skips plain separators only. */
  lemma {:induction false} SkipsAgree(s: string)
    requires Plain(Consumed(s, SkipStrict(s)))
    ensures SkipStrict(s) == SkipPlain(s)
  {
    hide *;
    SkipUnfolds(s);
    if s != [] {
      PlainIsSeparator(s[0]);
      if IsSeparator(s[0]) {
        ConsumedFirst(s, SkipStrict(s));
        PlainConcat([s[0]], Consumed(s[1..], SkipStrict(s[1..])));
        PlainChar(s[0]);
        SkipsAgree(s[1..]);
      }
    }
  }

  lemma SkipUnfolds(s: string)
    ensures |SkipStrict(s)| <= |s|
    ensures s == [] || !IsSeparator(s[0]) ==> SkipStrict(s) == s
    ensures s != [] && IsSeparator(s[0]) ==> SkipStrict(s) == SkipStrict(s[1..]) && |SkipStrict(s)| < |s|
    ensures s == [] || !IsPlainSeparator(s[0]) ==> SkipPlain(s) == s
    ensures s != [] && IsPlainSeparator(s[0]) ==> SkipPlain(s) == SkipPlain(s[1..])
  {
    hide IsSeparator, IsPlainSeparator;
  }

  lemma ConsumedFirst(s: string, t: string)
    requires |t| < |s|
    ensures Consumed(s, t) == [s[0]] + Consumed(s[1..], t)
  {
  }

  lemma PlainChar(c: char)
    ensures Plain([c]) <==> (IsSeparator(c) ==> IsPlainSeparator(c))
  {
    assert [c][0] == c;
    hide IsSeparator, IsPlainSeparator;
  }

  lemma PlainIsSeparator(c: char)
    ensures IsPlainSeparator(c) ==> IsSeparator(c)
  {
  }

  /** On plain separators the lexers agree on commands. */
  lemma CommandsAgree(s: string)
    requires SkipStrict(s) == SkipPlain(s)
    ensures StrictCommand(s).value.Letter? ==>
              LooseCommand(s) == Lexed(Some(StrictCommand(s).value.c), StrictCommand(s).rest)
    ensures !StrictCommand(s).value.Letter? ==> LooseCommand(s).value.None?
  {
  }

  lemma {:induction false} DigitsThenEnd(s: string, n: nat)
    requires n <= |s| && (forall i :: 0 <= i < n ==> IsDigit(s[i])) && (n < |s| ==> !IsDigit(s[n]))
    ensures DigitsEnd(s) == n
  {
    if n > 0 { DigitsThenEnd(s[1..], n - 1); }
  }

  lemma NoSignAhead(c: char)
    ensures IsDigit(c) ==> !IsSign(c)
  {
  }

  function Unsigned(s: string): string { if s != [] && IsSign(s[0]) then s[1..] else s }

  lemma I32Shape(s: string)
    requires ParseI32(s).Some?
    ensures Unsigned(s) != [] && forall i :: 0 <= i < |Unsigned(s)| ==> IsDigit(Unsigned(s)[i])
    ensures s[0] == '+' ==> ParseI32(s[1..]) == ParseI32(s)
  {
    if s[0] == '+' {
      DigitsEndAll(s[1..]);
      NoSignAhead(s[1]);
    }
  }

  lemma DigitsEndAll(s: string)
    ensures DigitsEnd(s) == |s| ==> forall i :: 0 <= i < |s| ==> IsDigit(s[i])
  {
  }

  /** Where the strict lexer reads an integer, the forgiving one reads the same and stops at the same place. */
  lemma {:induction false} IntsAgree(s: string)
    requires SkipStrict(s) == SkipPlain(s) && StrictInt(s).value.Some?
    ensures LooseInt(s) == StrictInt(s)
  {
    hide *;
    var t := SkipStrict(s);
    var end := NumberEnd(t);
    StrictIntIs(s);
    LooseIntIs(s);
    var token := t[..end];
    I32Shape(token);
    DigitsAfterSign(t, end);
    IntAtToken(t, SignEnd(t), end);
  }

  lemma {:induction false} StrictIntIs(s: string)
    requires StrictInt(s).value.Some?
    ensures var t := SkipStrict(s);
            var end := NumberEnd(t);
            0 < end <= |t| && StrictInt(s) == Lexed(ParseI32(t[..end]), t[end..]) && (end < |t| ==> !IsDigit(t[end]))
  {
    hide SkipStrict, ParseI32, IsDigit, IsSign;
  }

  lemma {:induction false} LooseIntIs(s: string)
    ensures var t := SkipPlain(s);
            LooseInt(s) == IntAt(t, SignEnd(t), SignEnd(t) + DigitsEnd(t[SignEnd(t)..]))
  {
    hide SkipPlain, DigitsEnd, IntAt, IsSign, IsSuffix;
  }

  lemma IntAtToken(t: string, from: nat, end: nat)
    requires from < end <= |t| && (t[0] == '+' ==> ParseI32(t[..end][1..]) == ParseI32(t[..end]))
    ensures IntAt(t, from, end) == Lexed(ParseI32(t[..end]), t[end..])
  {
    hide ParseI32;
    assert t[..end][1..] == t[1..end];
  }

  lemma DigitsAfterSign(t: string, end: nat)
    requires 0 < end <= |t| && (end < |t| ==> !IsDigit(t[end])) && Unsigned(t[..end]) != []
    requires forall i :: 0 <= i < |Unsigned(t[..end])| ==> IsDigit(Unsigned(t[..end])[i])
    ensures SignEnd(t) < end && DigitsEnd(t[SignEnd(t)..]) == end - SignEnd(t)
    ensures t[0] == t[..end][0]
  {
    hide IsDigit, DigitsEnd, IsSign;
    var from := SignEnd(t);
    var rest, ds := t[from..], Unsigned(t[..end]);
    assert t[..end][0] == t[0];
    assert |ds| == end - from;
    forall i | 0 <= i < end - from ensures IsDigit(rest[i]) { assert rest[i] == t[..end][from + i] == ds[i]; }
    if end < |t| { assert rest[end - from] == t[end]; }
    DigitsThenEnd(rest, end - from);
  }

  // ---- The two results ------------------------------------------------------

  datatype Handle = Handle(dx: int, dy: int)

  datatype Node = Node(x: int, y: int, inHandle: Option<Handle>, outHandle: Option<Handle>)

  /** A contour with relative handles. */
  datatype SubPath = SubPath(closed: bool, nodes: seq<Node>)

  datatype PathCommand =
    | MoveTo(x: int, y: int)
    | LineTo(x: int, y: int)
    | Cubic(c1x: int, c1y: int, c2x: int, c2y: int, x: int, y: int)
    | Close

  /** A contour with absolute control points. */
  datatype ParsedSubpath = ParsedSubpath(commands: seq<PathCommand>, closed: bool)

  datatype Result<T> = Ok(value: T) | Err

  // ---- The forgiving parser, on what is left of the text --------------------

  function Flushed<T>(done: seq<T>, cur: Option<T>): seq<T> { if cur.Some? then done + [cur.value] else done }

  /** `n` integers in a row. */
  function LooseInts(s: string, n: nat): (r: Lexed<Option<seq<int>>>)
    ensures IsSuffix(r.rest, s) && (r.value.Some? ==> |r.value.value| == n)
    decreases n
  {
    if n == 0 then Lexed(Some([]), s)
    else
      var first := LooseInt(s);
      var more := LooseInts(first.rest, n - 1);
      Lexed(if first.value.Some? && more.value.Some? then Some([first.value.value] + more.value.value)
            else None, more.rest)
  }

  function LooseStep(c: char, s: string, done: seq<ParsedSubpath>, cur: Option<ParsedSubpath>):
      (r: Option<(string, seq<ParsedSubpath>, Option<ParsedSubpath>)>)
    ensures r.Some? ==> IsSuffix(r.value.0, s)
  {
    if c == 'M' || c == 'm' then
      var v := LooseInts(s, 2);
      if v.value.None? then None
      else Some((v.rest, Flushed(done, cur), Some(ParsedSubpath([MoveTo(v.value.value[0], v.value.value[1])], false))))
    else if c == 'L' || c == 'l' then
      var v := LooseInts(s, 2);
      if v.value.None? || cur.None? then None
      else Some((v.rest, done, Some(cur.value.(commands := cur.value.commands
        + [LineTo(v.value.value[0], v.value.value[1])]))))
    else if c == 'C' || c == 'c' then
      var v := LooseInts(s, 6);
      if v.value.None? || cur.None? then None
      else
        var n := v.value.value;
        Some((v.rest, done, Some(cur.value.(commands := cur.value.commands
          + [Cubic(n[0], n[1], n[2], n[3], n[4], n[5])]))))
    else if (c == 'Z' || c == 'z') && cur.Some? then
      Some((s, done, Some(ParsedSubpath(cur.value.commands + [Close], true))))
    else None
  }

  function LooseParse(s: string, done: seq<ParsedSubpath>, cur: Option<ParsedSubpath>): seq<ParsedSubpath>
    decreases |s|
  {
    var cmd := LooseCommand(s);
    if cmd.value.None? then Flushed(done, cur)
    else
      var next := LooseStep(cmd.value.value, cmd.rest, done, cur);
      // A malformed run ends parsing with what is there.
      if next.None? then Flushed(done, cur) else LooseParse(next.value.0, next.value.1, next.value.2)
  }

  // ---- The strict parser ----------------------------------------------------

  function StrictInts(s: string, n: nat): (r: Lexed<Option<seq<int>>>)
    ensures IsSuffix(r.rest, s) && (r.value.Some? ==> |r.value.value| == n)
    decreases n
  {
    if n == 0 then Lexed(Some([]), s)
    else
      var first := StrictInt(s);
      if first.value.None? then Lexed(None, first.rest)
      else
        var more := StrictInts(first.rest, n - 1);
        Lexed(if more.value.Some? then Some([first.value.value] + more.value.value) else None, more.rest)
  }

  /** An offset, refused where it leaves the 32-bit range. */
  function CheckedHandle(x: int, y: int, fromX: int, fromY: int): Option<Handle> {
    if FitsI32(x - fromX) && FitsI32(y - fromY) then Some(Handle(x - fromX, y - fromY)) else None
  }

  /** A curve to `n[4], n[5]` from the last node of `sub`. */
  function WithCurve(sub: SubPath, n: seq<int>): Option<SubPath>
    requires |n| == 6
  {
    if sub.nodes == [] then None
    else
      var k := |sub.nodes| - 1;
      var prev := sub.nodes[k];
      var o, i := CheckedHandle(n[0], n[1], prev.x, prev.y), CheckedHandle(n[2], n[3], n[4], n[5]);
      if o.None? || i.None? then None
      else Some(sub.(nodes := sub.nodes[k := prev.(outHandle := o)] + [Node(n[4], n[5], i, None)]))
  }

  function StrictStep(c: char, s: string, done: seq<SubPath>,
                      cur: Option<SubPath>): (r: Option<(string, seq<SubPath>, Option<SubPath>)>)
    ensures r.Some? ==> IsSuffix(r.value.0, s)
  {
    if c == 'M' then
      var v := StrictInts(s, 2);
      if v.value.None? then None
      else Some((v.rest, Flushed(done, cur), Some(SubPath(false,
                                                          [Node(v.value.value[0], v.value.value[1], None, None)]))))
    else if cur.None? then None
    else if c == 'L' then
      var v := StrictInts(s, 2);
      if v.value.None? then None
      else Some((v.rest, done, Some(cur.value.(nodes := cur.value.nodes
        + [Node(v.value.value[0], v.value.value[1], None, None)]))))
    else if c == 'C' then
      var v := StrictInts(s, 6);
      if v.value.None? then None
      else
        var sub := WithCurve(cur.value, v.value.value);
        if sub.None? then None else Some((v.rest, done, sub))
    else if c == 'Z' then Some((s, done, Some(cur.value.(closed := true))))
    else None
  }

  function StrictParse(s: string, done: seq<SubPath>, cur: Option<SubPath>): Result<seq<SubPath>>
    decreases |s|
  {
    var cmd := StrictCommand(s);
    match cmd.value
    case Stray => Err
    case End => if Flushed(done, cur) == [] then Err else Ok(Flushed(done, cur))
    case Letter(c) =>
      var next := StrictStep(c, cmd.rest, done, cur);
      if next.None? then Err else StrictParse(next.value.0, next.value.1, next.value.2)
  }

  // ---- What relates them ----------------------------------------------------

  /** Each segment's controls are its end nodes plus their handles. */
  function CommandAt(nodes: seq<Node>, i: nat): PathCommand
    requires i < |nodes|
  {
    var p := nodes[i];
    if i == 0 then MoveTo(p.x, p.y)
    else if p.inHandle.Some? && nodes[i - 1].outHandle.Some? then
      var q, o, h := nodes[i - 1], nodes[i - 1].outHandle.value, p.inHandle.value;
      Cubic(q.x + o.dx, q.y + o.dy, p.x + h.dx, p.y + h.dy, p.x, p.y)
    else LineTo(p.x, p.y)
  }

  function Absolute(nodes: seq<Node>): seq<PathCommand> {
    seq(|nodes|, i requires 0 <= i < |nodes| => CommandAt(nodes, i))
  }

  /** Drawing commands only; closing is a flag in the other form. */
  function WithoutClose(cs: seq<PathCommand>): seq<PathCommand> {
    if cs == [] then []
    else if cs[|cs| - 1].Close? then WithoutClose(cs[..|cs| - 1])
    else WithoutClose(cs[..|cs| - 1]) + [cs[|cs| - 1]]
  }

  /** Handles come in pairs, one at either end of a curve. */
  predicate Paired(nodes: seq<Node>) {
    && nodes != [] && nodes[0].inHandle.None? && nodes[|nodes| - 1].outHandle.None?
    && forall i :: 0 < i < |nodes| ==> (nodes[i].inHandle.Some? <==> nodes[i - 1].outHandle.Some?)
  }

  predicate SameContour(strict: SubPath, loose: ParsedSubpath) {
    Paired(strict.nodes) && strict.closed == loose.closed && WithoutClose(loose.commands) == Absolute(strict.nodes)
  }

  predicate SameContours(strict: seq<SubPath>, loose: seq<ParsedSubpath>) {
    |strict| == |loose| && forall i :: 0 <= i < |strict| ==> SameContour(strict[i], loose[i])
  }

  predicate SameCurrent(strict: Option<SubPath>, loose: Option<ParsedSubpath>) {
    (strict.Some? <==> loose.Some?) && (strict.Some? ==> SameContour(strict.value, loose.value))
  }

  lemma WithoutCloseSnoc(cs: seq<PathCommand>, c: PathCommand)
    ensures WithoutClose(cs + [c]) == if c.Close? then WithoutClose(cs) else WithoutClose(cs) + [c]
  {
    assert (cs + [c])[..|cs|] == cs;
  }

  lemma FlushSame(strict: seq<SubPath>, loose: seq<ParsedSubpath>, s: Option<SubPath>, l: Option<ParsedSubpath>)
    requires SameContours(strict, loose) && SameCurrent(s, l)
    ensures SameContours(Flushed(strict, s), Flushed(loose, l))
  {
    hide SameContour;
  }

  lemma MoveSame(x: int, y: int)
    ensures SameContour(SubPath(false, [Node(x, y, None, None)]), ParsedSubpath([MoveTo(x, y)], false))
  {
    WithoutCloseSnoc([], MoveTo(x, y));
    assert [] + [MoveTo(x, y)] == [MoveTo(x, y)];
  }

  lemma LineSame(s: SubPath, l: ParsedSubpath, x: int, y: int)
    requires SameContour(s, l)
    ensures SameContour(s.(nodes := s.nodes + [Node(x, y, None, None)]), l.(commands := l.commands + [LineTo(x, y)]))
  {
    hide WithoutClose;
    var more := s.nodes + [Node(x, y, None, None)];
    WithoutCloseSnoc(l.commands, LineTo(x, y));
    assert Absolute(more) == Absolute(s.nodes) + [LineTo(x, y)];
  }

  lemma CurveSame(s: SubPath, l: ParsedSubpath, n: seq<int>)
    requires SameContour(s, l) && |n| == 6 && WithCurve(s, n).Some?
    ensures SameContour(WithCurve(s, n).value, l.(commands := l.commands + [Cubic(n[0], n[1], n[2], n[3], n[4], n[5])]))
  {
    WithoutCloseSnoc(l.commands, Cubic(n[0], n[1], n[2], n[3], n[4], n[5]));
    CurveNodes(s, n);
    hide WithoutClose, Absolute, Paired, WithCurve;
  }

  /** Setting both handles adds one curve and changes no earlier segment. */
  lemma CurveNodes(s: SubPath, n: seq<int>)
    requires Paired(s.nodes) && |n| == 6 && WithCurve(s, n).Some?
    ensures var r := WithCurve(s, n).value;
            && r.closed == s.closed && Paired(r.nodes)
            && Absolute(r.nodes) == Absolute(s.nodes) + [Cubic(n[0], n[1], n[2], n[3], n[4], n[5])]
  {
    hide FitsI32;
    var more := WithCurve(s, n).value.nodes;
    assert |more| == |s.nodes| + 1;
    forall i | 0 <= i < |s.nodes| ensures CommandAt(more, i) == CommandAt(s.nodes, i) {}
    assert CommandAt(more, |s.nodes|) == Cubic(n[0], n[1], n[2], n[3], n[4], n[5]);
  }

  lemma CloseSame(s: SubPath, l: ParsedSubpath)
    requires SameContour(s, l)
    ensures SameContour(s.(closed := true), ParsedSubpath(l.commands + [Close], true))
  {
    WithoutCloseSnoc(l.commands, Close);
  }

  lemma {:induction false} ManyIntsAgree(s: string, n: nat)
    requires StrictInts(s, n).value.Some? && Plain(Consumed(s, StrictInts(s, n).rest))
    ensures LooseInts(s, n) == StrictInts(s, n)
    decreases n
  {
    hide StrictInt, LooseInt, Plain, SkipStrict, SkipPlain, IsSuffix, Consumed;
    if n > 0 {
      var t := StrictInt(s).rest;
      SkipFirst(s);
      ConsumedTwice(s, t, StrictInts(t, n - 1).rest);
      ConsumedTwice(s, SkipStrict(s), t);
      SkipsAgree(s);
      IntsAgree(s);
      ManyIntsAgree(t, n - 1);
    }
  }

  lemma SkipFirst(s: string)
    ensures IsSuffix(SkipStrict(s), s) && IsSuffix(StrictInt(s).rest, SkipStrict(s))
  {
  }

  /** One strict step is one forgiving step. */
  lemma StepsAgree(c: char, s: string, done: seq<SubPath>, cur: Option<SubPath>, loose: seq<ParsedSubpath>,
                   open: Option<ParsedSubpath>)
    requires SameContours(done, loose) && SameCurrent(cur, open) && StrictStep(c, s, done, cur).Some?
    requires Plain(Consumed(s, StrictStep(c, s, done, cur).value.0))
    ensures LooseStep(c, s, loose, open).Some?
    ensures var (r, d, k) := StrictStep(c, s, done, cur).value;
            var (r', d', k') := LooseStep(c, s, loose, open).value;
            r == r' && SameContours(d, d') && SameCurrent(k, k')
  {
    hide SameContour, SameContours, WithCurve, Plain, StrictInts, LooseInts;
    if c == 'M' || c == 'L' { ManyIntsAgree(s, 2); }
    if c == 'C' { ManyIntsAgree(s, 6); }
    if c == 'M' {
      FlushSame(done, loose, cur, open);
      MoveSame(StrictInts(s, 2).value.value[0], StrictInts(s, 2).value.value[1]);
    } else if c == 'L' {
      LineSame(cur.value, open.value, StrictInts(s, 2).value.value[0], StrictInts(s, 2).value.value[1]);
    } else if c == 'C' {
      CurveSame(cur.value, open.value, StrictInts(s, 6).value.value);
    } else {
      CloseSame(cur.value, open.value);
    }
  }

  // ---- Handles lose nothing -------------------------------------------------

  function RelativeAt(cs: seq<PathCommand>, i: nat): Node
    requires i < |cs|
  {
    var c := cs[i];
    var (x, y) := if c.Close? then (0, 0) else (c.x, c.y);
    Node(x, y, if c.Cubic? then Some(Handle(c.c2x - x, c.c2y - y)) else None,
         if i + 1 < |cs| && cs[i + 1].Cubic? then Some(Handle(cs[i + 1].c1x - x, cs[i + 1].c1y - y)) else None)
  }

  function Relative(cs: seq<PathCommand>): seq<Node> { seq(|cs|, i requires 0 <= i < |cs| => RelativeAt(cs, i)) }

  /** Turning relative handles into absolute controls and back gives the same nodes. */
  lemma HandlesRoundTrip(nodes: seq<Node>)
    requires Paired(nodes)
    ensures Relative(Absolute(nodes)) == nodes
  {
    var cs := Absolute(nodes);
    forall i | 0 <= i < |nodes| ensures RelativeAt(cs, i) == nodes[i] {
      assert cs[i] == CommandAt(nodes, i);
      if i + 1 < |nodes| { assert cs[i + 1] == CommandAt(nodes, i + 1); }
    }
  }

  // ---- White space the forgiving parser does not know -----------------------

  /** Any other white space before a command: the strict parser skips it, the forgiving one drops the
      rest of the path. */
  lemma OtherSpaceDropsTheRest(c: char, s: string, done: seq<SubPath>, cur: Option<SubPath>, loose: seq<ParsedSubpath>,
                               open: Option<ParsedSubpath>)
    requires IsWhiteSpace(c) && !IsPlainSeparator(c)
    ensures StrictParse([c] + s, done, cur) == StrictParse(s, done, cur)
    ensures LooseParse([c] + s, loose, open) == Flushed(loose, open)
  {
    hide IsWhiteSpace, StrictStep, LooseStep;
    var t := [c] + s;
    assert t[1..] == s;
    assert SkipStrict(t) == SkipStrict(s);
    assert SkipPlain(t) == t;
    SpaceIsNoLetter(c);
  }

  lemma SpaceIsNoLetter(c: char)
    requires IsWhiteSpace(c)
    ensures !IsLetter(c)
  {
  }

  const VERTICAL_TAB: char := 11 as char

  /** So plain separators are needed: after a vertical tab the forgiving parser misses the close. */
  lemma VerticalTabSplitsTheParsers()
    ensures StrictParse("M0 0" + [VERTICAL_TAB] + "Z", [], None) == Ok([SubPath(true, [Node(0, 0, None, None)])])
    ensures LooseParse("M0 0" + [VERTICAL_TAB] + "Z", [], None) == [ParsedSubpath([MoveTo(0, 0)], false)]
  {
    hide StrictInts, LooseInts, StrictCommand, LooseCommand, StrictParse, LooseParse;
    var d, tail := "M0 0" + [VERTICAL_TAB] + "Z", [VERTICAL_TAB] + "Z";
    var start, looseStart := SubPath(false, [Node(0, 0, None, None)]), ParsedSubpath([MoveTo(0, 0)], false);
    assert d == ['M'] + ("0 0" + tail);
    LetterToken('M', "0 0" + tail);
    TwoZeros(tail);
    assert StrictStep('M', "0 0" + tail, [], None) == Some((tail, [], Some(start)));
    assert LooseStep('M', "0 0" + tail, [], None) == Some((tail, [], Some(looseStart)));
    OneCommand(d, 'M', "0 0" + tail, [], None, [], None);
    assert Flushed([], Some(looseStart)) == [looseStart];
    OtherSpaceDropsTheRest(VERTICAL_TAB, "Z", [], Some(start), [], Some(looseStart));
    LetterToken('Z', "");
    assert "Z" == ['Z'] + "";
    OneCommand("Z", 'Z', "", [], Some(start), [], None);
    var shut := SubPath(true, [Node(0, 0, None, None)]);
    assert StrictStep('Z', "", [], Some(start)) == Some(("", [], Some(shut)));
    AtEnd([], Some(shut));
    assert Flushed([], Some(shut)) == [shut];
  }

  lemma LetterToken(c: char, s: string)
    requires IsLetter(c)
    ensures StrictCommand([c] + s) == Lexed(Letter(c), s) && LooseCommand([c] + s) == Lexed(Some(c), s)
  {
    hide SkipStrict, SkipPlain, IsSuffix;
    assert ([c] + s)[1..] == s;
    SkipsNothing(c, s);
  }

  lemma SkipsNothing(c: char, s: string)
    ensures IsLetter(c) || IsDigit(c) || IsSign(c) ==> SkipStrict([c] + s) == [c] + s && SkipPlain([c] + s) == [c] + s
  {
    TokenIsNoSeparator(c);
    assert ([c] + s)[0] == c;
    hide IsLetter, IsDigit, IsSign, IsSeparator, IsPlainSeparator, IsSuffix;
  }

  lemma TokenIsNoSeparator(c: char)
    ensures IsLetter(c) || IsDigit(c) || IsSign(c) ==> !IsSeparator(c) && !IsPlainSeparator(c)
  {
  }

  lemma SkipsSpace(s: string)
    ensures SkipStrict([' '] + s) == SkipStrict(s) && SkipPlain([' '] + s) == SkipPlain(s)
  {
    assert ([' '] + s)[1..] == s;
  }

  lemma OneCommand(s: string, c: char, t: string, done: seq<SubPath>, cur: Option<SubPath>, loose: seq<ParsedSubpath>,
                   open: Option<ParsedSubpath>)
    requires StrictCommand(s) == Lexed(Letter(c), t) && LooseCommand(s) == Lexed(Some(c), t)
    ensures StrictStep(c, t, done, cur).Some? ==>
      var next := StrictStep(c, t, done, cur).value; StrictParse(s, done, cur) == StrictParse(next.0, next.1, next.2)
    ensures LooseStep(c, t, loose, open).Some? ==>
      var next := LooseStep(c, t, loose, open).value; LooseParse(s, loose, open) == LooseParse(next.0, next.1, next.2)
  {
    hide StrictStep, LooseStep, StrictCommand, LooseCommand;
  }

  lemma AtEnd(done: seq<SubPath>, cur: Option<SubPath>)
    requires Flushed(done, cur) != []
    ensures StrictParse("", done, cur) == Ok(Flushed(done, cur))
  {
  }

  lemma TwoZeros(tail: string)
    requires tail != [] && !IsDigit(tail[0]) && !IsSign(tail[0])
    ensures StrictInts("0 0" + tail, 2) == LooseInts("0 0" + tail, 2) == Lexed(Some([0, 0]), tail)
  {
    hide NumberEnd, ParseI32, StrictInt, LooseInt, StrictInts, LooseInts, SkipStrict, SkipPlain, IsSuffix;
    var rest := ['0'] + tail;
    var spaced := [' '] + rest;
    DigitToken('0', spaced);
    DigitToken('0', tail);
    assert "0 0" + tail == ['0'] + spaced;
    SkipsNothing('0', spaced);
    SkipsSpace(rest);
    SkipsNothing('0', tail);
    OneMoreInt("0 0" + tail, spaced, tail, 0, 0);
  }

  lemma OneMoreInt(s: string, t: string, u: string, a: int, b: int)
    requires StrictInt(s) == LooseInt(s) == Lexed(Some(a), t) && StrictInt(t) == LooseInt(t) == Lexed(Some(b), u)
    ensures StrictInts(s, 2) == LooseInts(s, 2) == Lexed(Some([a, b]), u)
  {
    hide StrictInt, LooseInt, IsSuffix, StrictInts, LooseInts;
    NoInts(u);
    IntsStep(t, 1);
    IntsStep(s, 2);
    assert [b] + [] == [b] && [a] + [b] == [a, b];
  }

  lemma NoInts(s: string)
    ensures StrictInts(s, 0) == LooseInts(s, 0) == Lexed(Some([]), s)
  {
  }

  lemma IntsStep(s: string, n: nat)
    requires n > 0
    ensures StrictInts(s, n) ==
      if StrictInt(s).value.None? then Lexed(None, StrictInt(s).rest)
      else
        var more := StrictInts(StrictInt(s).rest, n - 1);
        Lexed(if more.value.Some? then Some([StrictInt(s).value.value] + more.value.value) else None, more.rest)
    ensures LooseInts(s, n) ==
      var first, more := LooseInt(s), LooseInts(LooseInt(s).rest, n - 1);
      Lexed(if first.value.Some? && more.value.Some? then Some([first.value.value] + more.value.value)
            else None, more.rest)
  {
    hide StrictInt, LooseInt, IsSuffix;
  }

  /** A single digit before something that is no digit or sign. */
  lemma DigitToken(c: char, s: string)
    requires IsDigit(c) && (s != [] ==> !IsDigit(s[0]) && !IsSign(s[0]))
    ensures NumberEnd([c] + s) == 1 && ParseI32([c]) == Some(DigitValue(c))
    ensures forall t :: SkipStrict(t) == [c] + s ==> StrictInt(t) == Lexed(Some(DigitValue(c) as int), s)
    ensures forall t :: SkipPlain(t) == [c] + s ==> LooseInt(t) == Lexed(Some(DigitValue(c) as int), s)
  {
    var t := [c] + s;
    assert t[1..] == s && t[..1] == [c] && t[0..] == t;
    DigitsThenEnd(t, 1);
    DigitsThenEnd([c], 1);
    NoSignAhead(c);
    assert [c][..0] == [];
    assert Value([c]) == DigitValue(c);
  }

  // ---- The parsers over their tokenizers ------------------------------------

  class Tokenizer {
    var rest: string

    constructor (d: string)
      ensures rest == d
    {
      rest := d;
    }

    method SkipSeparators()
      modifies this
      ensures rest == SkipStrict(old(rest))
    {
      while rest != [] && IsSeparator(rest[0])
        invariant SkipStrict(rest) == SkipStrict(old(rest))
        decreases |rest|
      {
        rest := rest[1..];
      }
    }

    method NextCommand() returns (c: Command)
      modifies this
      ensures Lexed(c, rest) == StrictCommand(old(rest))
    {
      SkipSeparators();
      if rest == [] {
        return End;
      }
      if !IsLetter(rest[0]) {
        return Stray;
      }
      c := Letter(rest[0]);
      rest := rest[1..];
    }

    method NextInt() returns (n: Option<int>)
      modifies this
      ensures Lexed(n, rest) == StrictInt(old(rest))
    {
      hide ParseI32, IsSuffix, SkipStrict;
      SkipSeparators();
      var end := 0;
      while end < |rest| && (IsDigit(rest[end]) || IsSign(rest[end]))
        invariant end <= |rest| && NumberEnd(rest) == end + NumberEnd(rest[end..])
      {
        assert rest[end..][1..] == rest[end + 1..];
        end := end + 1;
      }
      if end == 0 {
        return None;
      }
      n := ParseI32(rest[..end]);
      rest := rest[end..];
    }

    /** `n` coordinates, stopping at the first that is refused. */
    method NextInts(n: nat) returns (ns: Option<seq<int>>)
      modifies this
      ensures Lexed(ns, rest) == StrictInts(old(rest), n)
      decreases n
    {
      hide StrictInt, LooseInt, IsSuffix, StrictInts, LooseInts;
      NoInts(rest);
      if n == 0 {
        return Some([]);
      }
      IntsStep(rest, n);
      var first := NextInt();
      if first.None? {
        return None;
      }
      var more := NextInts(n - 1);
      ns := if more.Some? then Some([first.value] + more.value) else None;
    }
  }

  method ParsePathD(d: string) returns (r: Result<seq<SubPath>>)
    ensures r == StrictParse(d, [], None)
  {
    hide StrictCommand, StrictInts;
    var tokens := new Tokenizer(d);
    var subpaths: seq<SubPath>, current: Option<SubPath> := [], None;
    while true
      invariant StrictParse(tokens.rest, subpaths, current) == StrictParse(d, [], None)
      decreases |tokens.rest|
    {
      var c := tokens.NextCommand();
      if c == Stray {
        return Err;
      }
      if c == End {
        break;
      }
      match c.c
      case 'M' =>
        subpaths := Flushed(subpaths, current);
        current := None;
        var at := tokens.NextInts(2);
        if at.None? { return Err; }
        current := Some(SubPath(false, [Node(at.value[0], at.value[1], None, None)]));
      case 'L' =>
        if current.None? { return Err; }
        var at := tokens.NextInts(2);
        if at.None? { return Err; }
        current := Some(current.value.(nodes := current.value.nodes + [Node(at.value[0], at.value[1], None, None)]));
      case 'C' =>
        if current.None? { return Err; }
        var at := tokens.NextInts(6);
        if at.None? { return Err; }
        current := WithCurve(current.value, at.value);
        if current.None? { return Err; }
      case 'Z' =>
        if current.None? { return Err; }
        current := Some(current.value.(closed := true));
      case _ => return Err;
    }
    subpaths := Flushed(subpaths, current);
    if subpaths == [] {
      return Err;
    }
    r := Ok(subpaths);
  }

  lemma Slices(text: string, start: nat, pos: nat)
    requires start <= pos <= |text|
    ensures text[start..pos] == text[start..][..pos - start] && text[pos..] == text[start..][pos - start..]
    ensures start < pos ==> text[start..pos][1..] == text[start..][1..pos - start] && text[start] == text[start..][0]
  {
  }

  /** The forgiving read, on positions in the whole text. */
  lemma LooseIntAt(s: string, text: string, start: nat, digits: nat, pos: nat)
    requires start <= digits <= pos <= |text| && SkipPlain(s) == text[start..]
    requires digits - start == SignEnd(text[start..]) && pos == digits + DigitsEnd(text[digits..])
    ensures LooseInt(s) == IntAt(text[start..], digits - start, pos - start)
    ensures pos > digits ==>
      LooseInt(s) == Lexed(ParseI32(if text[start] == '+' then text[start..pos][1..]
                                    else text[start..pos]), text[pos..])
  {
    hide ParseI32, IsSuffix, SkipPlain, DigitsEnd, LooseInt, SignEnd;
    LooseIntIs(s);
    Slices(text, start, digits);
    Slices(text, start, pos);
  }

  class PathTokens {
    const text: string
    var pos: nat

    predicate Valid()
      reads this
    {
      pos <= |text|
    }

    function Rest(): string
      requires Valid()
      reads this
    {
      text[pos..]
    }

    constructor (s: string)
      ensures Valid() && Rest() == s
    {
      text, pos := s, 0;
    }

    method SkipSeparators()
      requires Valid()
      modifies this
      ensures Valid() && Rest() == SkipPlain(old(Rest()))
    {
      while pos < |text| && IsPlainSeparator(text[pos])
        invariant Valid() && SkipPlain(Rest()) == SkipPlain(old(Rest()))
      {
        assert text[pos..][1..] == text[pos + 1..];
        pos := pos + 1;
      }
    }

    method NextCommand() returns (c: Option<char>)
      requires Valid()
      modifies this
      ensures Valid() && Lexed(c, Rest()) == LooseCommand(old(Rest()))
    {
      SkipSeparators();
      if pos >= |text| || !IsLetter(text[pos]) {
        return None;
      }
      assert text[pos..][1..] == text[pos + 1..];
      c := Some(text[pos]);
      pos := pos + 1;
    }

    method SkipDigits()
      requires Valid()
      modifies this
      ensures Valid() && pos == old(pos) + DigitsEnd(text[old(pos)..])
    {
      while pos < |text| && IsDigit(text[pos])
        invariant old(pos) <= pos <= |text| && DigitsEnd(text[old(pos)..]) == pos - old(pos) + DigitsEnd(text[pos..])
      {
        assert text[pos..][1..] == text[pos + 1..];
        pos := pos + 1;
      }
    }

    method NextInt() returns (n: Option<int>)
      requires Valid()
      modifies this
      ensures Valid() && Lexed(n, Rest()) == LooseInt(old(Rest()))
    {
      hide ParseI32, IsSuffix, SkipPlain, DigitsEnd, LooseInt, IsSign;
      ghost var s := Rest();
      SkipSeparators();
      var start := pos;
      ghost var t := Rest();
      assert SignEnd(t) == if pos < |text| && IsSign(text[pos]) then 1 else 0;
      if pos < |text| && IsSign(text[pos]) {
        pos := pos + 1;
      }
      var digitsStart := pos;
      SkipDigits();
      LooseIntAt(s, text, start, digitsStart, pos);
      if pos == digitsStart {
        pos := start;
        return None;
      }
      n := if text[start] == '+' then ParseI32(text[start..pos][1..]) else ParseI32(text[start..pos]);
    }

    /** `n` coordinates; all are read even after one is refused. */
    method NextInts(n: nat) returns (ns: Option<seq<int>>)
      requires Valid()
      modifies this
      ensures Valid() && Lexed(ns, Rest()) == LooseInts(old(Rest()), n)
      decreases n
    {
      hide StrictInt, LooseInt, IsSuffix, StrictInts, LooseInts, Rest;
      NoInts(Rest());
      if n == 0 {
        return Some([]);
      }
      IntsStep(Rest(), n);
      var first := NextInt();
      var more := NextInts(n - 1);
      ns := if first.Some? && more.Some? then Some([first.value] + more.value) else None;
    }
  }

  method ParsePath(path: string) returns (subpaths: seq<ParsedSubpath>)
    ensures subpaths == LooseParse(path, [], None)
  {
    hide LooseCommand, LooseInts;
    var tokens := new PathTokens(path);
    subpaths := [];
    var current: Option<ParsedSubpath> := None;
    while true
      invariant tokens.Valid() && LooseParse(tokens.Rest(), subpaths, current) == LooseParse(path, [], None)
      decreases |tokens.Rest()|
    {
      var c := tokens.NextCommand();
      if c.None? {
        break;
      }
      var cmd := c.value;
      if cmd == 'M' || cmd == 'm' {
        var at := tokens.NextInts(2);
        if at.None? { break; }
        subpaths := Flushed(subpaths, current);
        current := Some(ParsedSubpath([MoveTo(at.value[0], at.value[1])], false));
      } else if cmd == 'L' || cmd == 'l' {
        var at := tokens.NextInts(2);
        if at.None? || current.None? { break; }
        current := Some(current.value.(commands := current.value.commands + [LineTo(at.value[0], at.value[1])]));
      } else if cmd == 'C' || cmd == 'c' {
        var at := tokens.NextInts(6);
        if at.None? || current.None? { break; }
        var n := at.value;
        current := Some(current.value.(commands := current.value.commands
          + [Cubic(n[0], n[1], n[2], n[3], n[4], n[5])]));
      } else if cmd == 'Z' || cmd == 'z' {
        if current.None? { break; }
        current := Some(ParsedSubpath(current.value.commands + [Close], true));
      } else {
        break;
      }
    }
    subpaths := Flushed(subpaths, current);
  }
}
