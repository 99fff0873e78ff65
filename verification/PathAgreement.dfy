/** Exactly when the two path parsers agree on a text that the strict one accepts. */
module PathAgreement {
  import opened Sequences
  import opened Decimal
  import opened PathParsers

  // ---- The condition on the text --------------------------------------------

  /** White space that the strict parser skips and the forgiving one does not know. */
  predicate IsOther(c: char) { IsSeparator(c) && !IsPlainSeparator(c) }

  /** How much of `s` comes before the first such character. */
  function PlainPrefix(s: string): (n: nat)
    ensures n <= |s| && Plain(s[..n]) && (n < |s| ==> IsOther(s[n]))
  {
    if s == [] || IsOther(s[0]) then 0
    else
      var n := 1 + PlainPrefix(s[1..]);
      assert forall i :: 1 <= i < n ==> s[..n][i] == s[1..][..n - 1][i - 1];
      n
  }

  /** Nothing but separators and closes. */
  predicate OnlyCloses(s: string) { forall i :: 0 <= i < |s| ==> IsSeparator(s[i]) || s[i] == 'Z' }

  /** Whether the contour under way is closed after `s`, if it was so before. */
  function ClosedAfter(closed: bool, s: string): bool {
    if s == [] then closed
    else if s[|s| - 1] == 'Z' then true
    else if s[|s| - 1] == 'M' then false
    else ClosedAfter(closed, s[..|s| - 1])
  }

  /** From the first unknown white space on there are only separators and closes, and closes only
      of a contour that is closed already. */
  predicate TailIdle(closed: bool, s: string) {
    var k := PlainPrefix(s);
    OnlyCloses(s[k..]) && ('Z' in s[k..] ==> ClosedAfter(closed, s[..k]))
  }

  // ---- Weighing what has been parsed ----------------------------------------

  function WeightOf(s: SubPath): nat { 1 + |s.nodes| + if s.closed then 1 else 0 }

  function Weight(ss: seq<SubPath>): nat {
    if ss == [] then 0 else Weight(ss[..|ss| - 1]) + WeightOf(ss[|ss| - 1])
  }

  lemma WeightSnoc(ss: seq<SubPath>, s: SubPath)
    ensures Weight(ss + [s]) == Weight(ss) + WeightOf(s)
  {
    assert (ss + [s])[..|ss|] == ss;
  }

  predicate IsClosed(cur: Option<SubPath>) { cur.Some? && cur.value.closed }

  /** A strict step adds weight, but for a repeated close, which changes nothing. */
  lemma StepWeighs(c: char, s: string, done: seq<SubPath>, cur: Option<SubPath>)
    requires StrictStep(c, s, done, cur).Some?
    ensures var (t, d, k) := StrictStep(c, s, done, cur).value;
            if c == 'Z' && IsClosed(cur) then t == s && d == done && k == cur
            else Weight(Flushed(d, k)) > Weight(Flushed(done, cur))
    ensures c in "MLCZ" && |StrictStep(c, s, done, cur).value.0| <= |s|
  {
    hide StrictInts, WithCurve, Weight, IsSuffix;
    var (t, d, k) := StrictStep(c, s, done, cur).value;
    if cur.Some? { WeightSnoc(done, cur.value); }
    if k.Some? { WeightSnoc(d, k.value); }
    if c == 'C' && cur.Some? && StrictInts(s, 6).value.Some? { CurveWeighs(cur.value, StrictInts(s, 6).value.value); }
    StepShrinks(c, s, done, cur);
  }

  lemma StepShrinks(c: char, s: string, done: seq<SubPath>, cur: Option<SubPath>)
    requires StrictStep(c, s, done, cur).Some?
    ensures |StrictStep(c, s, done, cur).value.0| <= |s|
  {
    hide StrictInts, WithCurve;
  }

  lemma CurveWeighs(sub: SubPath, n: seq<int>)
    requires |n| == 6 && WithCurve(sub, n).Some?
    ensures WeightOf(WithCurve(sub, n).value) == WeightOf(sub) + 1
  {
    hide CheckedHandle;
  }

  lemma {:induction false} SkipParts(s: string)
    ensures forall i :: 0 <= i < |s| - |SkipStrict(s)| ==> IsSeparator(s[i])
  {
    hide IsSeparator, IsSuffix;
    if s != [] && IsSeparator(s[0]) {
      SkipParts(s[1..]);
      assert forall i :: 1 <= i < |s| - |SkipStrict(s)| ==> s[i] == s[1..][i - 1];
    }
  }

  lemma SeparatorIsNoCommand(c: char)
    ensures IsSeparator(c) ==> c != 'Z' && c != 'M' && !IsLetter(c) && !IsDigit(c) && !IsSign(c)
    ensures IsDigit(c) || IsSign(c) ==> c != 'Z' && c != 'M' && !IsSeparator(c)
  {
  }

  /** What comes before a command or the end is separators. */
  lemma CommandParts(s: string)
    ensures var cmd := StrictCommand(s);
            && (forall i :: 0 <= i < |s| - |SkipStrict(s)| ==> IsSeparator(s[i]) && s[i] != 'Z')
            && (cmd.value.End? ==> SkipStrict(s) == [])
            && (cmd.value.Letter? ==> |SkipStrict(s)| == |cmd.rest| + 1 && s[|s| - |cmd.rest| - 1] == cmd.value.c
                                      && cmd.rest == s[|s| - |cmd.rest|..])
  {
    hide IsWhiteSpace, IsSeparator;
    SkipParts(s);
    forall i | 0 <= i < |s| - |SkipStrict(s)| ensures s[i] != 'Z' { SeparatorIsNoCommand(s[i]); }
  }

  /** The rest of a parse never loses weight, and keeps it only over separators and repeated closes. */
  lemma {:induction false} RestWeighs(s: string, done: seq<SubPath>, cur: Option<SubPath>)
    requires StrictParse(s, done, cur).Ok?
    ensures Weight(StrictParse(s, done, cur).value) >= Weight(Flushed(done, cur))
    ensures Weight(StrictParse(s, done, cur).value) == Weight(Flushed(done, cur)) ==>
              OnlyCloses(s) && ('Z' in s ==> IsClosed(cur))
    decreases |s|
  {
    hide StrictStep, StrictCommand, IsSeparator, Weight, Flushed, IsSuffix;
    var cmd := StrictCommand(s);
    CommandParts(s);
    if cmd.value.Letter? {
      var c := cmd.value.c;
      StepWeighs(c, cmd.rest, done, cur);
      var next := StrictStep(c, cmd.rest, done, cur).value;
      RestWeighs(next.0, next.1, next.2);
      if c == 'Z' && IsClosed(cur) { JoinIdle(s, cmd.rest); }
    }
  }

  /** Separators, a close, and an idle rest are idle. */
  lemma JoinIdle(s: string, t: string)
    requires |t| < |s| && t == s[|s| - |t|..] && s[|s| - |t| - 1] == 'Z'
    requires forall i :: 0 <= i < |s| - |t| - 1 ==> IsSeparator(s[i])
    ensures OnlyCloses(s) <==> OnlyCloses(t)
  {
    hide IsSeparator;
    if OnlyCloses(t) {
      forall i | 0 <= i < |s| ensures IsSeparator(s[i]) || s[i] == 'Z' {
        if i >= |s| - |t| { assert s[i] == t[i - (|s| - |t|)]; }
      }
    }
    if OnlyCloses(s) {
      forall i | 0 <= i < |t| ensures IsSeparator(t[i]) || t[i] == 'Z' { assert t[i] == s[|s| - |t| + i]; }
    }
  }

  /** And over those the result is what was there before. */
  lemma {:induction false} RestIdles(s: string, done: seq<SubPath>, cur: Option<SubPath>)
    requires StrictParse(s, done, cur).Ok? && OnlyCloses(s) && ('Z' in s ==> IsClosed(cur))
    ensures StrictParse(s, done, cur).value == Flushed(done, cur)
    decreases |s|
  {
    hide StrictStep, StrictCommand, IsSeparator, Weight, Flushed, IsSuffix;
    var cmd := StrictCommand(s);
    CommandParts(s);
    if cmd.value.Letter? {
      var c := cmd.value.c;
      StepWeighs(c, cmd.rest, done, cur);
      SeparatorIsNoCommand(c);
      LetterIsNoSeparator(c);
      assert c == 'Z';
      JoinIdle(s, cmd.rest);
      RestIdles(cmd.rest, done, cur);
    }
  }

  lemma LetterIsNoSeparator(c: char)
    ensures c in "MLCZ" ==> !IsSeparator(c)
  {
  }

  // ---- One result, one forgiving form ---------------------------------------

  /** Two strict results with the same forgiving form are the same. */
  lemma SameFormIsSame(a: seq<SubPath>, b: seq<SubPath>, loose: seq<ParsedSubpath>)
    requires SameContours(a, loose) && SameContours(b, loose)
    ensures a == b
  {
    forall i | 0 <= i < |a| ensures a[i] == b[i] {
      assert SameContour(a[i], loose[i]) && SameContour(b[i], loose[i]);
      HandlesRoundTrip(a[i].nodes);
      HandlesRoundTrip(b[i].nodes);
      hide Absolute, Relative, Paired, WithoutClose;
    }
    hide SameContour;
  }

  /** Stopping here agrees with parsing on exactly when the rest is idle. */
  lemma StoppingAgreesIff(s: string, done: seq<SubPath>, cur: Option<SubPath>, loose: seq<ParsedSubpath>,
                          open: Option<ParsedSubpath>)
    requires SameContours(done, loose) && SameCurrent(cur, open) && StrictParse(s, done, cur).Ok?
    ensures SameContours(StrictParse(s, done, cur).value, Flushed(loose, open))
       <==> OnlyCloses(s) && ('Z' in s ==> IsClosed(cur))
  {
    hide StrictParse, SameContours, SameCurrent, Flushed, OnlyCloses, Weight;
    FlushSame(done, loose, cur, open);
    RestWeighs(s, done, cur);
    if OnlyCloses(s) && ('Z' in s ==> IsClosed(cur)) { RestIdles(s, done, cur); }
    if SameContours(StrictParse(s, done, cur).value, Flushed(loose, open)) {
      SameFormIsSame(StrictParse(s, done, cur).value, Flushed(done, cur), Flushed(loose, open));
    }
  }

  // ---- Where the first unknown white space is --------------------------------

  lemma {:induction false} PrefixOver(s: string, t: string)
    requires IsSuffix(t, s) && Plain(Consumed(s, t))
    ensures PlainPrefix(s) == |s| - |t| + PlainPrefix(t)
  {
    hide IsSeparator, IsPlainSeparator;
    if |t| < |s| {
      var p := Consumed(s, t);
      assert p == [s[0]] + Consumed(s[1..], t);
      PlainConcat([s[0]], Consumed(s[1..], t));
      assert [s[0]][0] == s[0];
      PrefixOver(s[1..], t);
    } else {
      assert t == s;
    }
  }

  lemma PlainOne(c: char)
    ensures Plain([c]) <==> !IsOther(c)
    ensures Plain([])
    ensures IsPlainSeparator(c) <==> IsSeparator(c) && !IsOther(c)
  {
    PlainIsSeparator(c);
    assert [c][0] == c;
    hide IsSeparator, IsPlainSeparator;
  }

  lemma PrefixUnfolds(s: string)
    ensures PlainPrefix(s) == if s == [] || IsOther(s[0]) then 0 else 1 + PlainPrefix(s[1..])
  {
    hide IsOther;
  }

  /** The forgiving lexer stops at unknown white space that the strict one skips. */
  lemma {:induction false} SkipStopsAtOther(s: string)
    requires !Plain(Consumed(s, SkipStrict(s)))
    ensures var k := PlainPrefix(s);
            k < |s| - |SkipStrict(s)| && SkipPlain(s) == s[k..] && IsOther(s[k])
            && forall i :: 0 <= i < k ==> IsSeparator(s[i])
  {
    hide *;
    SkipUnfolds(s);
    PrefixUnfolds(s);
    ConsumedNothing(s);
    assert s != [] && IsSeparator(s[0]);
    PlainOne(s[0]);
    ConsumedFirst(s, SkipStrict(s));
    PlainConcat([s[0]], Consumed(s[1..], SkipStrict(s[1..])));
    if !IsOther(s[0]) {
      SkipStopsAtOther(s[1..]);
      var k := PlainPrefix(s[1..]);
      assert forall i :: 1 <= i <= k ==> s[i] == s[1..][i - 1];
      assert s[1..][k..] == s[k + 1..];
    }
  }

  lemma ConsumedNothing(s: string)
    ensures Plain(Consumed(s, s))
  {
  }

  lemma OtherIsNoToken(c: char)
    requires IsOther(c)
    ensures !IsLetter(c) && !IsDigit(c) && !IsSign(c)
  {
  }

  lemma LooseStopsAtOther(s: string)
    requires !Plain(Consumed(s, SkipStrict(s)))
    ensures LooseCommand(s).value.None? && LooseInt(s).value.None?
  {
    hide IsOther, IsSeparator, IsPlainSeparator, IsLetter, IsSign, IsDigit, ParseI32, SkipPlain, SkipStrict;
    SkipStopsAtOther(s);
    OtherIsNoToken(s[PlainPrefix(s)]);
    LooseIntIs(s);
    var t := SkipPlain(s);
    assert t[0..] == t && t[0] == s[PlainPrefix(s)];
    hide LooseInt;
    assert DigitsEnd(t) == 0;
  }

  // ---- Coordinates ----------------------------------------------------------

  /** What a strict read of an integer consumes: separators, then digits and signs, with a digit. */
  lemma IntParts(s: string)
    requires StrictInt(s).value.Some?
    ensures var t, m := StrictInt(s).rest, |s| - |SkipStrict(s)|;
            && m < |s| - |t| && (forall i :: 0 <= i < m ==> IsSeparator(s[i]))
            && (forall i :: m <= i < |s| - |t| ==> IsDigit(s[i]) || IsSign(s[i]))
            && IsDigit(s[|s| - |t| - 1])
  {
    hide IsSeparator, IsDigit, IsSign, ParseI32, SkipStrict;
    SkipParts(s);
    var u := SkipStrict(s);
    var end := NumberEnd(u);
    I32Shape(u[..end]);
    hide NumberEnd;
    assert forall i :: 0 <= i < |u| ==> u[i] == s[|s| - |u| + i];
    LastIsDigit(u[..end]);
  }

  lemma LastIsDigit(s: string)
    requires Unsigned(s) != [] && forall i :: 0 <= i < |Unsigned(s)| ==> IsDigit(Unsigned(s)[i])
    ensures s != [] && IsDigit(s[|s| - 1])
  {
    hide IsDigit, IsSign;
    assert Unsigned(s)[|Unsigned(s)| - 1] == s[|s| - 1];
  }

  /** Coordinates hold no command letters. */
  lemma {:induction false} IntsQuiet(s: string, n: nat)
    requires StrictInts(s, n).value.Some?
    ensures Quiet(Consumed(s, StrictInts(s, n).rest))
    decreases n
  {
    IntsStepOf(s, n);
    hide StrictInts, StrictInt, SkipStrict, Quiet;
    if n == 0 {
      QuietNothing(s);
    } else {
      var t := StrictInt(s).rest;
      IntQuiet(s);
      IntsQuiet(t, n - 1);
      SkipFirst(s);
      ConsumedTwice(s, SkipStrict(s), t);
      ConsumedTwice(s, t, StrictInts(t, n - 1).rest);
      QuietConcat(Consumed(s, t), Consumed(t, StrictInts(t, n - 1).rest));
    }
  }

  /** No letters that open or close a contour. */
  predicate Quiet(s: string) { forall i :: 0 <= i < |s| ==> s[i] != 'M' && s[i] != 'Z' }

  lemma QuietNothing(s: string)
    ensures Quiet(Consumed(s, s))
  {
  }

  lemma QuietConcat(a: string, b: string)
    requires Quiet(a) && Quiet(b)
    ensures Quiet(a + b)
  {
  }

  lemma IntQuiet(s: string)
    requires StrictInt(s).value.Some?
    ensures Quiet(Consumed(s, StrictInt(s).rest))
  {
    hide *;
    IntParts(s);
    SkipFirst(s);
    SuffixParts(SkipStrict(s), s);
    SuffixParts(StrictInt(s).rest, SkipStrict(s));
    forall i | 0 <= i < |s| - |StrictInt(s).rest| ensures s[i] != 'M' && s[i] != 'Z' { SeparatorIsNoCommand(s[i]); }
    QuietChars(s, StrictInt(s).rest);
  }

  lemma QuietChars(s: string, t: string)
    requires |t| <= |s| && forall i :: 0 <= i < |s| - |t| ==> s[i] != 'M' && s[i] != 'Z'
    ensures Quiet(Consumed(s, t))
  {
  }

  lemma IntsStepOf(s: string, n: nat)
    requires StrictInts(s, n).value.Some?
    ensures n == 0 ==> StrictInts(s, n).rest == s
    ensures n > 0 ==>
      && StrictInt(s).value.Some? && StrictInts(StrictInt(s).rest, n - 1).value.Some?
      && StrictInts(s, n).rest == StrictInts(StrictInt(s).rest, n - 1).rest
  {
    hide StrictInt;
  }

  /** Unknown white space among coordinates: the forgiving read fails, and a digit comes after it. */
  lemma {:induction false} BrokenInts(s: string, n: nat)
    requires StrictInts(s, n).value.Some? && !Plain(Consumed(s, StrictInts(s, n).rest))
    ensures LooseInts(s, n).value.None? && DigitAfter(s, PlainPrefix(s))
    decreases n
  {
    hide *;
    IntsStepOf(s, n);
    ConsumedNothing(s);
    IntsStep(s, n);
    var t := StrictInt(s).rest;
    SkipFirst(s);
    ConsumedTwice(s, SkipStrict(s), t);
    ConsumedTwice(s, t, StrictInts(t, n - 1).rest);
    if Plain(Consumed(s, t)) {
      SkipsAgree(s);
      IntsAgree(s);
      BrokenInts(t, n - 1);
      PrefixOver(s, t);
      DigitShift(s, t, PlainPrefix(t));
    } else {
      BrokenInt(s);
    }
  }

  predicate DigitAfter(s: string, k: nat) { exists i :: k <= i < |s| && IsDigit(s[i]) }

  lemma DigitShift(s: string, t: string, k: nat)
    requires IsSuffix(t, s) && DigitAfter(t, k)
    ensures DigitAfter(s, |s| - |t| + k)
  {
    hide IsDigit;
    var i :| k <= i < |t| && IsDigit(t[i]);
    assert t[i] == s[|s| - |t| + i];
  }

  lemma BrokenInt(s: string)
    requires StrictInt(s).value.Some? && !Plain(Consumed(s, StrictInt(s).rest))
    ensures LooseInt(s).value.None? && DigitAfter(s, PlainPrefix(s))
  {
    hide *;
    var t := StrictInt(s).rest;
    SkipFirst(s);
    ConsumedTwice(s, SkipStrict(s), t);
    TokenIsPlain(s);
    LooseStopsAtOther(s);
    SkipStopsAtOther(s);
    IntParts(s);
    DigitAt(s, PlainPrefix(s), |s| - |t| - 1);
  }

  lemma DigitAt(s: string, k: nat, i: nat)
    requires k <= i < |s| && IsDigit(s[i])
    ensures DigitAfter(s, k)
  {
  }

  lemma TokenIsPlain(s: string)
    requires StrictInt(s).value.Some?
    ensures Plain(Consumed(SkipStrict(s), StrictInt(s).rest))
  {
    hide *;
    IntParts(s);
    SkipFirst(s);
    var u, t := SkipStrict(s), StrictInt(s).rest;
    SuffixParts(u, s);
    forall i | 0 <= i < |u| - |t| ensures !IsSeparator(u[i]) { SeparatorIsNoCommand(s[|s| - |u| + i]); }
    SuffixParts(t, u);
    NoSeparators(u, t);
  }

  lemma SuffixParts(t: string, s: string)
    requires IsSuffix(t, s)
    ensures |t| <= |s| && forall i :: 0 <= i < |t| ==> t[i] == s[|s| - |t| + i]
  {
  }

  lemma NoSeparators(u: string, t: string)
    requires |t| <= |u| && forall i :: 0 <= i < |u| - |t| ==> !IsSeparator(u[i])
    ensures Plain(Consumed(u, t))
  {
    hide IsSeparator;
  }

  // ---- Closing --------------------------------------------------------------

  lemma {:induction false} ClosedConcat(closed: bool, a: string, b: string)
    ensures ClosedAfter(closed, a + b) == ClosedAfter(ClosedAfter(closed, a), b)
  {
    if b == [] {
      assert a + b == a;
    } else {
      var n := |b| - 1;
      ClosedConcat(closed, a, b[..n]);
      assert (a + b)[..|a| + n] == a + b[..n];
    }
  }

  lemma {:induction false} ClosedQuiet(closed: bool, s: string)
    requires Quiet(s)
    ensures ClosedAfter(closed, s) == closed
  {
    if s != [] { ClosedQuiet(closed, s[..|s| - 1]); }
  }

  function ClosedBy(closed: bool, c: char): bool { if c == 'Z' then true else if c == 'M' then false else closed }

  /** A command's text closes what the command closes. */
  lemma CommandCloses(closed: bool, seps: string, c: char, ints: string)
    requires Quiet(seps) && Quiet(ints)
    ensures ClosedAfter(closed, seps + [c] + ints) == ClosedBy(closed, c)
  {
    ClosedQuiet(closed, seps);
    ClosedConcat(closed, seps, [c]);
    ClosedConcat(closed, seps + [c], ints);
    ClosedQuiet(ClosedBy(closed, c), ints);
    assert [c][..0] == [];
    hide Quiet;
  }

  lemma StepCloses(c: char, s: string, done: seq<SubPath>, cur: Option<SubPath>)
    requires StrictStep(c, s, done, cur).Some?
    ensures IsClosed(StrictStep(c, s, done, cur).value.2) == ClosedBy(IsClosed(cur), c)
    ensures Quiet(Consumed(s, StrictStep(c, s, done, cur).value.0))
    ensures c in "MLCZ" && IsSuffix(StrictStep(c, s, done, cur).value.0, s)
  {
    hide *;
    StepReads(c, s, done, cur);
    StepFlag(c, s, done, cur);
    if c != 'Z' { IntsQuiet(s, if c == 'C' then 6 else 2); }
    QuietNothing(s);
  }

  lemma StepFlag(c: char, s: string, done: seq<SubPath>, cur: Option<SubPath>)
    requires StrictStep(c, s, done, cur).Some?
    ensures IsClosed(StrictStep(c, s, done, cur).value.2) == ClosedBy(IsClosed(cur), c)
    ensures IsSuffix(StrictStep(c, s, done, cur).value.0, s)
  {
    hide StrictInts, CheckedHandle, IsSuffix;
  }

  // ---- The tail over one command --------------------------------------------

  /** Reading a plain stretch leaves the question to the rest. */
  lemma TailOver(closed: bool, s: string, t: string)
    requires IsSuffix(t, s) && Plain(Consumed(s, t))
    ensures TailIdle(closed, s) <==> TailIdle(ClosedAfter(closed, Consumed(s, t)), t)
  {
    hide Plain, ClosedAfter, OnlyCloses, PlainPrefix, Consumed;
    PrefixOver(s, t);
    var k := PlainPrefix(t);
    ClosedConcat(closed, Consumed(s, t), t[..k]);
    CutLater(s, t, k);
  }

  lemma CutLater(s: string, t: string, k: nat)
    requires IsSuffix(t, s) && k <= |t|
    ensures s[|s| - |t| + k..] == t[k..] && s[..|s| - |t| + k] == Consumed(s, t) + t[..k]
  {
  }

  /** In front of the first unknown white space there are separators only: the question is about
      the whole of `s`. */
  lemma TailHere(closed: bool, s: string)
    requires !Plain(Consumed(s, SkipStrict(s)))
    ensures TailIdle(closed, s) <==> OnlyCloses(s) && ('Z' in s ==> closed)
  {
    hide *;
    SkipStopsAtOther(s);
    var k := PlainPrefix(s);
    forall i | 0 <= i < k ensures s[i] != 'M' && s[i] != 'Z' { SeparatorIsNoCommand(s[i]); }
    QuietChars(s, s[k..]);
    ConsumedIs(s, k);
    ClosedQuiet(closed, s[..k]);
    IdleFrom(s, k);
    TailIs(closed, s);
  }

  lemma TailIs(closed: bool, s: string)
    ensures var k := PlainPrefix(s);
            TailIdle(closed, s) <==> OnlyCloses(s[k..]) && ('Z' in s[k..] ==> ClosedAfter(closed, s[..k]))
  {
  }

  lemma ConsumedIs(s: string, k: nat)
    requires k <= |s|
    ensures Consumed(s, s[k..]) == s[..k]
  {
  }

  /** Separators in front change nothing. */
  lemma IdleFrom(s: string, k: nat)
    requires k <= |s| && forall i :: 0 <= i < k ==> IsSeparator(s[i]) && s[i] != 'Z'
    ensures OnlyCloses(s[k..]) <==> OnlyCloses(s)
    ensures 'Z' in s[k..] <==> 'Z' in s
  {
    hide IsSeparator;
    assert forall i :: k <= i < |s| ==> s[i] == s[k..][i - k];
  }

  lemma TailEnds(closed: bool, s: string)
    requires Plain(s)
    ensures TailIdle(closed, s)
  {
    assert Consumed(s, []) == s;
    PrefixOver(s, []);
  }

  lemma TailBroken(closed: bool, s: string)
    requires DigitAfter(s, PlainPrefix(s))
    ensures !TailIdle(closed, s)
  {
    var k := PlainPrefix(s);
    hide PlainPrefix, IsSeparator, IsDigit, ClosedAfter;
    var i :| k <= i < |s| && IsDigit(s[i]);
    SeparatorIsNoCommand(s[i]);
    assert s[k..][i - k] == s[i];
  }

  // ---- Coordinates cut by unknown white space --------------------------------

  /** The forgiving parser drops the command whose coordinates are cut. */
  lemma BrokenStepIsDropped(c: char, s: string, done: seq<SubPath>, cur: Option<SubPath>, loose: seq<ParsedSubpath>,
                            open: Option<ParsedSubpath>)
    requires StrictStep(c, s, done, cur).Some? && !Plain(Consumed(s, StrictStep(c, s, done, cur).value.0))
    ensures LooseStep(c, s, loose, open).None? && DigitAfter(s, PlainPrefix(s)) && c in "MLC"
  {
    hide *;
    ConsumedNothing(s);
    StepReads(c, s, done, cur);
    BrokenInts(s, if c == 'C' then 6 else 2);
    LooseRefuses(c, s, loose, open);
  }

  /** A strict step reads its coordinates, a close none. */
  lemma StepReads(c: char, s: string, done: seq<SubPath>, cur: Option<SubPath>)
    requires StrictStep(c, s, done, cur).Some?
    ensures c in "MLCZ" && (c == 'Z' ==> StrictStep(c, s, done, cur).value.0 == s)
    ensures c != 'Z' ==>
              var v := StrictInts(s, if c == 'C' then 6 else 2);
              v.value.Some? && StrictStep(c, s, done, cur).value.0 == v.rest
  {
    hide StrictInts, CheckedHandle, IsSuffix;
  }

  lemma LooseRefuses(c: char, s: string, loose: seq<ParsedSubpath>, open: Option<ParsedSubpath>)
    requires c in "MLC" && LooseInts(s, if c == 'C' then 6 else 2).value.None?
    ensures LooseStep(c, s, loose, open).None?
  {
    hide LooseInts, IsSuffix;
  }

  /** A text that still draws something is not idle. */
  lemma DrawingIsNotIdle(s: string)
    requires StrictCommand(s).value.Letter? && StrictCommand(s).value.c in "MLC"
    ensures !OnlyCloses(s)
  {
    hide IsSeparator, StrictCommand;
    CommandParts(s);
    var cmd := StrictCommand(s);
    LetterIsNoSeparator(cmd.value.c);
    assert s[|s| - |cmd.rest| - 1] == cmd.value.c;
  }

  // ---- The theorem ----------------------------------------------------------

  lemma StrictUnfolds(s: string, done: seq<SubPath>, cur: Option<SubPath>)
    requires StrictParse(s, done, cur).Ok? && StrictCommand(s).value.Letter?
    ensures var cmd := StrictCommand(s);
            && StrictStep(cmd.value.c, cmd.rest, done, cur).Some?
            && var next := StrictStep(cmd.value.c, cmd.rest, done, cur).value;
               StrictParse(s, done, cur) == StrictParse(next.0, next.1, next.2)
    ensures |StrictCommand(s).rest| < |s|
  {
    hide StrictStep, StrictCommand;
  }

  lemma StrictEnds(s: string, done: seq<SubPath>, cur: Option<SubPath>)
    requires StrictParse(s, done, cur).Ok? && !StrictCommand(s).value.Letter?
    ensures StrictCommand(s).value.End? && StrictParse(s, done, cur).value == Flushed(done, cur)
  {
    hide StrictStep, StrictCommand;
  }

  lemma LooseUnfolds(s: string, loose: seq<ParsedSubpath>, open: Option<ParsedSubpath>)
    ensures var cmd := LooseCommand(s);
            && (cmd.value.None? ==> LooseParse(s, loose, open) == Flushed(loose, open))
            && (cmd.value.Some? ==>
                  var next := LooseStep(cmd.value.value, cmd.rest, loose, open);
                  LooseParse(s, loose, open) ==
                    if next.None? then Flushed(loose, open) else LooseParse(next.value.0, next.value.1, next.value.2))
  {
    hide LooseStep, LooseCommand;
  }

  /** How the text of one command splits. */
  lemma CommandText(s: string, t: string)
    requires StrictCommand(s).value.Letter? && IsSuffix(t, StrictCommand(s).rest)
    ensures var cmd := StrictCommand(s);
            && IsSuffix(SkipStrict(s), s) && IsSuffix(cmd.rest, s) && IsSuffix(t, s)
            && Consumed(s, cmd.rest) == Consumed(s, SkipStrict(s)) + [cmd.value.c]
            && Consumed(s, t) == Consumed(s, SkipStrict(s)) + [cmd.value.c] + Consumed(cmd.rest, t)
            && Quiet(Consumed(s, SkipStrict(s)))
            && (Plain(Consumed(s, cmd.rest)) <==> Plain(Consumed(s, SkipStrict(s))))
  {
    hide *;
    var cmd := StrictCommand(s);
    SkipFirst(s);
    SuffixParts(SkipStrict(s), s);
    SkipParts(s);
    forall i | 0 <= i < |s| - |SkipStrict(s)| ensures s[i] != 'M' && s[i] != 'Z' { SeparatorIsNoCommand(s[i]); }
    QuietChars(s, SkipStrict(s));
    CommandLetter(s);
    ConsumedTwice(s, SkipStrict(s), cmd.rest);
    ConsumedTwice(s, cmd.rest, t);
    LetterIsPlain(cmd.value.c);
  }

  lemma CommandLetter(s: string)
    requires StrictCommand(s).value.Letter?
    ensures var cmd := StrictCommand(s);
            IsSuffix(cmd.rest, SkipStrict(s)) && Consumed(SkipStrict(s), cmd.rest) == [cmd.value.c]
            && IsLetter(cmd.value.c)
  {
    hide SkipStrict;
  }

  lemma LetterIsPlain(c: char)
    requires IsLetter(c)
    ensures Plain([c])
  {
    PlainOne(c);
  }

  /** Where the strict parser succeeds from matching states, the results match if and only if the tail
      is idle. */
  lemma {:induction false} AgreeIff(s: string, done: seq<SubPath>, cur: Option<SubPath>, loose: seq<ParsedSubpath>,
                                    open: Option<ParsedSubpath>)
    requires SameContours(done, loose) && SameCurrent(cur, open) && StrictParse(s, done, cur).Ok?
    ensures SameContours(StrictParse(s, done, cur).value, LooseParse(s, loose, open)) <==> TailIdle(IsClosed(cur), s)
    decreases |s|
  {
    hide *;
    var cmd := StrictCommand(s);
    LooseUnfolds(s, loose, open);
    SkipFirst(s);
    SuffixParts(SkipStrict(s), s);
    if !Plain(Consumed(s, SkipStrict(s))) {
      LooseStopsAtOther(s);
      StoppingAgreesIff(s, done, cur, loose, open);
      TailHere(IsClosed(cur), s);
    } else {
      SkipsAgree(s);
      CommandsAgree(s);
      if !cmd.value.Letter? {
        StrictEnds(s, done, cur);
        FlushSame(done, loose, cur, open);
        EndIsPlain(s);
        TailEnds(IsClosed(cur), s);
      } else {
        StrictUnfolds(s, done, cur);
        StepAgreesIff(s, done, cur, loose, open);
        var next := StrictStep(cmd.value.c, cmd.rest, done, cur).value;
        if Plain(Consumed(cmd.rest, next.0)) {
          var lnext := LooseStep(cmd.value.c, cmd.rest, loose, open).value;
          StepWeighs(cmd.value.c, cmd.rest, done, cur);
          AgreeIff(next.0, next.1, next.2, lnext.1, lnext.2);
        } else {
          StoppingAgreesIff(s, done, cur, loose, open);
        }
      }
    }
  }

  lemma EndIsPlain(s: string)
    requires StrictCommand(s).value.End? && Plain(Consumed(s, SkipStrict(s)))
    ensures Plain(s)
  {
    hide SkipStrict, Plain;
    assert Consumed(s, []) == s;
  }

  /** One command that both lexers find. */
  lemma StepAgreesIff(s: string, done: seq<SubPath>, cur: Option<SubPath>, loose: seq<ParsedSubpath>,
                      open: Option<ParsedSubpath>)
    requires SameContours(done, loose) && SameCurrent(cur, open) && StrictCommand(s).value.Letter?
    requires Plain(Consumed(s, SkipStrict(s)))
    requires StrictStep(StrictCommand(s).value.c, StrictCommand(s).rest, done, cur).Some?
    ensures var cmd := StrictCommand(s);
            var (t, d, k) := StrictStep(cmd.value.c, cmd.rest, done, cur).value;
            var l := LooseStep(cmd.value.c, cmd.rest, loose, open);
            && |t| <= |cmd.rest|
            && (Plain(Consumed(cmd.rest, t)) ==>
                  && l.Some? && l.value.0 == t && SameContours(d, l.value.1) && SameCurrent(k, l.value.2)
                  && (TailIdle(IsClosed(cur), s) <==> TailIdle(IsClosed(k), t)))
            && (!Plain(Consumed(cmd.rest, t)) ==> l.None? && !OnlyCloses(s) && !TailIdle(IsClosed(cur), s))
  {
    hide *;
    var cmd := StrictCommand(s);
    var (t, d, k) := StrictStep(cmd.value.c, cmd.rest, done, cur).value;
    StepCloses(cmd.value.c, cmd.rest, done, cur);
    SuffixParts(t, cmd.rest);
    SkipFirst(s);
    SuffixParts(SkipStrict(s), s);
    CommandText(s, t);
    ConsumedTwice(s, cmd.rest, t);
    if Plain(Consumed(cmd.rest, t)) {
      StepsAgree(cmd.value.c, cmd.rest, done, cur, loose, open);
      TailOver(IsClosed(cur), s, t);
      CommandCloses(IsClosed(cur), Consumed(s, SkipStrict(s)), cmd.value.c, Consumed(cmd.rest, t));
    } else {
      BrokenStepIsDropped(cmd.value.c, cmd.rest, done, cur, loose, open);
      PrefixOver(s, cmd.rest);
      DigitShift(s, cmd.rest, PlainPrefix(cmd.rest));
      TailBroken(IsClosed(cur), s);
      DrawingIsNotIdle(s);
    }
  }

  /** On every text the strict parser accepts, the forgiving one reads the same contours, closed flags
      and coordinates if and only if from the first white space it does not know on there are only
      separators and closes of a contour that is closed already. */
  lemma ParsersAgreeIff(d: string)
    requires StrictParse(d, [], None).Ok?
    ensures SameContours(StrictParse(d, [], None).value, LooseParse(d, [], None)) <==> TailIdle(false, d)
  {
    hide TailIdle, StrictParse, LooseParse;
    AgreeIff(d, [], None, [], None);
  }

  /** In particular they agree where all white space is of the kind both know. */
  lemma StrictIsForgiven(d: string)
    requires Plain(d) && StrictParse(d, [], None).Ok?
    ensures SameContours(StrictParse(d, [], None).value, LooseParse(d, [], None))
  {
    hide TailIdle, StrictParse, LooseParse, SameContours, Plain;
    ParsersAgreeIff(d);
    TailEnds(false, d);
  }

  /** Unknown white space before a command: the results agree exactly when what follows is idle. */
  lemma OtherSpaceAgreesIff(c: char, s: string, done: seq<SubPath>, cur: Option<SubPath>, loose: seq<ParsedSubpath>,
                            open: Option<ParsedSubpath>)
    requires IsOther(c) && SameContours(done, loose) && SameCurrent(cur, open) && StrictParse(s, done, cur).Ok?
    ensures StrictParse([c] + s, done, cur).Ok?
    ensures SameContours(StrictParse([c] + s, done, cur).value, LooseParse([c] + s, loose, open))
       <==> OnlyCloses(s) && ('Z' in s ==> IsClosed(cur))
  {
    OtherIsSpace(c);
    hide *;
    OtherSpaceDropsTheRest(c, s, done, cur, loose, open);
    StoppingAgreesIff(s, done, cur, loose, open);
  }

  lemma OtherIsSpace(c: char)
    requires IsOther(c)
    ensures IsWhiteSpace(c) && !IsPlainSeparator(c)
  {
  }

  /** Unknown white space among the coordinates of a command: the results never agree. */
  lemma CutCoordinatesDiffer(s: string, done: seq<SubPath>, cur: Option<SubPath>, loose: seq<ParsedSubpath>,
                             open: Option<ParsedSubpath>)
    requires SameContours(done, loose) && SameCurrent(cur, open) && StrictParse(s, done, cur).Ok?
    requires StrictCommand(s).value.Letter? && Plain(Consumed(s, SkipStrict(s)))
    requires StrictStep(StrictCommand(s).value.c, StrictCommand(s).rest, done, cur).Some?
    requires !Plain(Consumed(StrictCommand(s).rest,
                             StrictStep(StrictCommand(s).value.c, StrictCommand(s).rest, done, cur).value.0))
    ensures !SameContours(StrictParse(s, done, cur).value, LooseParse(s, loose, open))
  {
    hide *;
    AgreeIff(s, done, cur, loose, open);
    StepAgreesIff(s, done, cur, loose, open);
  }
}
