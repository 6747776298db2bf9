/** Decimal numbers and separators in text, as std::to_string prints and the readers split them. */
module Texts {
  import opened Options

  /** The place of the first c, or the end. */
  function Find(s: string, c: char): (i: nat)
    ensures i <= |s| && c !in s[..i] && (i < |s| ==> s[i] == c)
  {
    if s == [] || s[0] == c then 0
    else
      var i := Find(s[1..], c);
      assert s[..i + 1] == [s[0]] + s[1..][..i];
      i + 1
  }

  lemma FindIs(a: string, c: char, rest: string)
    requires c !in a
    ensures var s := a + [c] + rest; Find(s, c) == |a| && s[..|a|] == a && s[|a| + 1..] == rest
  {
    var s := a + [c] + rest;
    var i := Find(s, c);
    assert s[|a|] == c && s[..|a|] == a && s[|a| + 1..] == rest;
    assert forall k :: 0 <= k < |a| ==> s[k] == a[k] && s[k] != c;
    assert forall k :: 0 <= k < i ==> s[k] == s[..i][k] && s[k] != c;
  }

  lemma FindNone(a: string, c: char)
    requires c !in a
    ensures Find(a, c) == |a|
  {
  }

  predicate IsDigit(c: char) {
    '0' <= c <= '9'
  }

  function Digit(d: nat): (c: char)
    requires d < 10
    ensures IsDigit(c)
  {
    '0' + d as char
  }

  /** std::to_string of a number that is not negative. */
  function ToString(n: nat): (s: string)
    ensures |s| > 0 && forall k :: 0 <= k < |s| ==> IsDigit(s[k])
  {
    if n < 10 then [Digit(n)] else ToString(n / 10) + [Digit(n % 10)]
  }

  /** The number that a non-empty string of digits stands for. */
  function ParseNum(s: string): Option<nat> {
    if s == [] then None
    else
      var c := s[|s| - 1];
      if !IsDigit(c) then None
      else if |s| == 1 then Some((c - '0') as nat)
      else
        var front := ParseNum(s[..|s| - 1]);
        if front.None? then None else Some(10 * front.value + (c - '0') as nat)
  }

  lemma {:induction false} ParsePrinted(n: nat)
    ensures ParseNum(ToString(n)) == Some(n)
  {
    var s := ToString(n);
    if n >= 10 {
      ParsePrinted(n / 10);
      assert s[..|s| - 1] == ToString(n / 10);
    }
  }

  /** Different numbers print differently. */
  lemma PrintedDiffer(m: nat, n: nat)
    requires ToString(m) == ToString(n)
    ensures m == n
  {
    ParsePrinted(m);
    ParsePrinted(n);
  }

  /** std::to_string of any integer. */
  function IntToString(n: int): (s: string)
    ensures forall k :: 0 <= k < |s| ==> s[k] == '-' || IsDigit(s[k])
  {
    if n < 0 then "-" + ToString(-n) else ToString(n)
  }

  lemma PrintedIntsDiffer(m: int, n: int)
    requires IntToString(m) == IntToString(n)
    ensures m == n
  {
    hide ToString;
    assert m < 0 ==> IntToString(m)[1..] == ToString(-m);
    assert n < 0 ==> IntToString(n)[1..] == ToString(-n);
    assert m >= 0 ==> IsDigit(IntToString(m)[0]);
    assert n >= 0 ==> IsDigit(IntToString(n)[0]);
    if m < 0 { PrintedDiffer(-m, -n); } else { PrintedDiffer(m, n); }
  }

  /** Words with a space between them. */
  function Spaced(words: seq<string>): string
    requires words != []
  {
    if |words| == 1 then words[0] else words[0] + " " + Spaced(words[1..])
  }

  /** Words without spaces can be told from their line. */
  lemma {:induction false} SpacedDiffer(a: seq<string>, b: seq<string>)
    requires a != [] && b != [] && Spaced(a) == Spaced(b)
    requires (forall w :: w in a ==> ' ' !in w) && forall w :: w in b ==> ' ' !in w
    ensures a == b
  {
    hide Find;
    FirstWord(a);
    FirstWord(b);
    if |a| > 1 && |b| > 1 {
      assert forall w :: w in a[1..] ==> w in a;
      assert forall w :: w in b[1..] ==> w in b;
      SpacedDiffer(a[1..], b[1..]);
      assert a == [a[0]] + a[1..] && b == [b[0]] + b[1..];
    }
  }

  lemma FirstWord(a: seq<string>)
    requires a != [] && ' ' !in a[0]
    ensures var s := Spaced(a);
            && Find(s, ' ') == |a[0]| <= |s| && s[..|a[0]|] == a[0] && (|a| > 1 <==> |a[0]| < |s|)
            && (|a| > 1 ==> s[|a[0]| + 1..] == Spaced(a[1..]))
  {
    if |a| == 1 {
      FindNone(a[0], ' ');
    } else {
      FindIs(a[0], ' ', Spaced(a[1..]));
      assert Spaced(a) == a[0] + [' '] + Spaced(a[1..]);
    }
  }
}
