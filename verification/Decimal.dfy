/** Decimal rendering of integers, and why `prefix + separator + number` names are unambiguous. */
module Decimal {
  predicate IsDigit(c: char) { '0' <= c <= '9' }

  function DigitChar(d: nat): (c: char)
    requires d < 10
    ensures IsDigit(c)
  {
    ('0' as int + d) as char
  }

  function Render(n: nat): (s: string)
    ensures |s| >= 1 && forall i :: 0 <= i < |s| ==> IsDigit(s[i])
    ensures |s| == 1 <==> n < 10
  {
    if n < 10 then [DigitChar(n)] else Render(n / 10) + [DigitChar(n % 10)]
  }

  /** Signed rendering, as the source formats a 64-bit signed counter. */
  function RenderInt(n: int): (s: string)
    ensures |s| >= 1 && forall i :: 0 <= i < |s| ==> IsDigit(s[i]) || s[i] == '-'
    ensures s[0] == '-' <==> n < 0
  {
    if n < 0 then "-" + Render(-n) else Render(n)
  }

  lemma {:induction false} RenderInjective(m: nat, n: nat)
    requires Render(m) == Render(n)
    ensures m == n
  {
    var s := Render(m);
    if m < 10 {
      assert s[0] == DigitChar(m) == DigitChar(n);
    } else {
      assert s[..|s| - 1] == Render(m / 10) && s[..|s| - 1] == Render(n / 10);
      assert s[|s| - 1] == DigitChar(m % 10) == DigitChar(n % 10);
      RenderInjective(m / 10, n / 10);
    }
  }

  lemma RenderIntInjective(m: int, n: int)
    requires RenderInt(m) == RenderInt(n)
    ensures m == n
  {
    var s := RenderInt(m);
    if m < 0 {
      assert s[1..] == Render(-m) && s[1..] == Render(-n);
      RenderInjective(-m, -n);
    } else {
      RenderInjective(m, n);
    }
  }

  lemma SeparatorNotLater(u: string, v: string, u': string, v': string, c: char)
    requires u + [c] + v == u' + [c] + v' && c !in v
    ensures |u'| <= |u|
  {
    var s := u + [c] + v;
    assert forall i :: |u| < i < |s| ==> s[i] == v[i - |u| - 1];
    assert s[|u'|] == c;
  }

  /** A string splits in only one way at the last occurrence of a separator. */
  lemma SplitAtLast(u: string, v: string, u': string, v': string, c: char)
    requires u + [c] + v == u' + [c] + v' && c !in v && c !in v'
    ensures u == u' && v == v'
  {
    SeparatorNotLater(u, v, u', v', c);
    SeparatorNotLater(u', v', u, v, c);
    var s := u + [c] + v;
    assert u == s[..|u|] && u' == s[..|u'|];
    assert v == s[|u| + 1..] && v' == s[|u'| + 1..];
  }
}
