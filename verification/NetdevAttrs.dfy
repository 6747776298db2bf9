/**
 * Address attributes as text (server/netdev.cpp): the join in getAttrs and the
 * split in setAttrs.
 */
module NetdevAttrs {
  import opened Options
  import opened Texts

  datatype Attr = Attr(name: string, value: string)

  function Printed(a: Attr): string {
    a.name + ":" + a.value
  }

  /** joinAddresses. */
  function Join(attrs: seq<Attr>): string {
    if attrs == [] then ""
    else if |attrs| == 1 then Printed(attrs[0])
    else Printed(attrs[0]) + "," + Join(attrs[1..])
  }

  /** boost's split on ",": every comma ends a token, so there is always one token at least. */
  function Tokens(s: string): (ts: seq<string>)
    ensures |ts| > 0 && forall k :: 0 <= k < |ts| ==> ',' !in ts[k]
    decreases |s|
  {
    var i := Find(s, ',');
    if i == |s| then [s] else [s[..i]] + Tokens(s[i + 1..])
  }

  /** A token up to its first colon, and after it. */
  function ParseAttr(t: string): (a: Option<Attr>)
    ensures a.None? <==> ':' !in t
    ensures a.Some? ==> ':' !in a.value.name && Printed(a.value) == t
  {
    var pos := Find(t, ':');
    if pos == |t| then None else Some(Attr(t[..pos], t[pos + 1..]))
  }

  /** None is the exception for an ill-formed attribute. */
  function ParseAll(ts: seq<string>): Option<seq<Attr>> {
    if ts == [] then Some([])
    else
      var a, rest := ParseAttr(ts[0]), ParseAll(ts[1..]);
      if a.None? || rest.None? then None else Some([a.value] + rest.value)
  }

  function Split(s: string): Option<seq<Attr>> {
    ParseAll(Tokens(s))
  }

  /** Neither separator in a name, no comma in a value. */
  predicate Plain(a: Attr) {
    ':' !in a.name && ',' !in a.name && ',' !in a.value
  }

  predicate AllPlain(attrs: seq<Attr>) {
    forall k :: 0 <= k < |attrs| ==> Plain(attrs[k])
  }

  lemma TokenBack(a: Attr)
    requires Plain(a)
    ensures ParseAttr(Printed(a)) == Some(a) && ',' !in Printed(a)
  {
    assert Printed(a) == a.name + [':'] + a.value;
    FindIs(a.name, ':', a.value);
  }

  lemma TokensFront(t: string, rest: string)
    requires ',' !in t
    ensures Tokens(t + "," + rest) == [t] + Tokens(rest)
  {
    assert t + "," + rest == t + [','] + rest;
    FindIs(t, ',', rest);
  }

  lemma OneToken(t: string)
    requires ',' !in t
    ensures Tokens(t) == [t]
  {
    FindNone(t, ',');
  }

  lemma {:induction false} JoinedComesBack(attrs: seq<Attr>)
    requires attrs != [] && AllPlain(attrs)
    ensures Split(Join(attrs)) == Some(attrs)
  {
    hide ParseAttr, Plain, Printed, Tokens, Find;
    var a, rest := attrs[0], attrs[1..];
    TokenBack(a);
    if |attrs| == 1 {
      OneToken(Printed(a));
      assert ParseAll([Printed(a)][1..]) == Some([]);
      assert attrs == [a] + [];
    } else {
      JoinedComesBack(rest);
      TokensFront(Printed(a), Join(rest));
      assert ([Printed(a)] + Tokens(Join(rest)))[1..] == Tokens(Join(rest));
      assert attrs == [a] + rest;
    }
  }

  /** What tokens without commas parse to has no separators where it must not. */
  lemma {:induction false} ParsedArePlain(ts: seq<string>)
    requires ParseAll(ts).Some? && forall k :: 0 <= k < |ts| ==> ',' !in ts[k]
    ensures var attrs := ParseAll(ts).value;
            && |attrs| == |ts| && AllPlain(attrs)
            && forall k :: 0 <= k < |ts| ==> Printed(attrs[k]) == ts[k]
  {
    hide Plain, Printed, ParseAttr;
    if ts != [] {
      ParsedArePlain(ts[1..]);
      var a := ParseAttr(ts[0]).value;
      PartsHaveNoComma(a);
      assert Plain(a);
    }
  }

  lemma PartsHaveNoComma(a: Attr)
    requires ',' !in Printed(a) && ':' !in a.name
    ensures Plain(a)
  {
    assert forall k :: 0 <= k < |a.name| ==> a.name[k] == Printed(a)[k];
    assert forall k :: 0 <= k < |a.value| ==> a.value[k] == Printed(a)[|a.name| + 1 + k];
  }

  /** Whatever a split returns is not empty and has no separators where it must not. */
  lemma SplitIsPlain(s: string)
    requires Split(s).Some?
    ensures Split(s).value != [] && AllPlain(Split(s).value)
  {
    ParsedArePlain(Tokens(s));
  }

  /**
   * Joining and splitting back gives the same list exactly for non-empty lists whose
   * names hold neither ":" nor "," and whose values hold no ",". Colons in values,
   * as in IPv6 addresses, survive.
   */
  lemma JoinSplitExactly(attrs: seq<Attr>)
    ensures Split(Join(attrs)) == Some(attrs) <==> attrs != [] && AllPlain(attrs)
  {
    if attrs != [] && AllPlain(attrs) {
      JoinedComesBack(attrs);
    }
    if Split(Join(attrs)) == Some(attrs) {
      SplitIsPlain(Join(attrs));
    }
  }

  /** A text that splits is the join of what it splits into. */
  lemma SplitJoin(s: string)
    requires Split(s).Some?
    ensures Join(Split(s).value) == s
  {
    ParsedArePlain(Tokens(s));
    JoinTokens(s, Split(s).value);
  }

  lemma {:induction false} JoinTokens(s: string, attrs: seq<Attr>)
    requires |attrs| == |Tokens(s)| && forall k :: 0 <= k < |attrs| ==> Printed(attrs[k]) == Tokens(s)[k]
    ensures Join(attrs) == s
    decreases |s|
  {
    hide Printed, Tokens, Find;
    var i := Find(s, ',');
    FirstToken(s);
    if i < |s| {
      var rest := s[i + 1..];
      assert forall k :: 0 <= k < |attrs[1..]| ==> attrs[1..][k] == attrs[k + 1] && Tokens(rest)[k] == Tokens(s)[k + 1];
      JoinTokens(rest, attrs[1..]);
      assert s == s[..i] + "," + rest;
    }
  }

  lemma FirstToken(s: string)
    ensures var i := Find(s, ',');
            && (i == |s| ==> Tokens(s) == [s])
            && (i < |s| ==> s[i] == ',' && Tokens(s) == [s[..i]] + Tokens(s[i + 1..]))
  {
  }

  /** A text is refused exactly when some token has no colon. */
  lemma {:induction false} RefusedExactly(ts: seq<string>)
    ensures ParseAll(ts).None? <==> exists k :: 0 <= k < |ts| && ':' !in ts[k]
  {
    if ts != [] {
      RefusedExactly(ts[1..]);
      if exists k :: 0 <= k < |ts| && ':' !in ts[k] {
        var k :| 0 <= k < |ts| && ':' !in ts[k];
        assert k > 0 ==> ts[1..][k - 1] == ts[k];
      }
      if exists k :: 0 <= k < |ts[1..]| && ':' !in ts[1..][k] {
        var k :| 0 <= k < |ts[1..]| && ':' !in ts[1..][k];
        assert ts[k + 1] == ts[1..][k];
      }
    }
  }

  // ------------------------------------------------------------------- the loops

  lemma {:induction false} JoinBack(attrs: seq<Attr>, a: Attr)
    ensures Join(attrs + [a]) == Join(attrs) + (if attrs == [] then "" else ",") + Printed(a)
  {
    hide Printed;
    if attrs == [] {
      assert attrs + [a] == [a];
    } else if |attrs| == 1 {
      assert (attrs + [a])[1..] == [a];
    } else {
      JoinBack(attrs[1..], a);
      assert (attrs + [a])[1..] == attrs[1..] + [a];
    }
  }

  method JoinAddresses(attrs: seq<Attr>) returns (ss: string)
    ensures ss == Join(attrs)
  {
    var first := true;
    ss := "";
    for k := 0 to |attrs|
      invariant ss == Join(attrs[..k]) && (first <==> k == 0)
    {
      JoinBack(attrs[..k], attrs[k]);
      assert attrs[..k + 1] == attrs[..k] + [attrs[k]];
      ss := ss + (if first then "" else ",") + attrs[k].name + ":" + attrs[k].value;
      first := false;
    }
    assert attrs[..|attrs|] == attrs;
  }

  lemma {:induction false} ParseAllBack(ts: seq<string>, t: string)
    ensures ParseAll(ts + [t]) ==
              if ParseAll(ts).None? || ParseAttr(t).None? then None else Some(ParseAll(ts).value + [ParseAttr(t).value])
  {
    hide ParseAttr;
    if ts == [] {
      assert ts + [t] == [t];
      assert ParseAll([t][1..]) == Some([]);
      if ParseAttr(t).Some? {
        var a := ParseAttr(t).value;
        assert [a] + [] == [] + [a];
      }
    } else {
      ParseAllBack(ts[1..], t);
      assert (ts + [t])[1..] == ts[1..] + [t];
      if ParseAll(ts).Some? && ParseAttr(t).Some? {
        var a, rest, last := ParseAttr(ts[0]).value, ParseAll(ts[1..]).value, ParseAttr(t).value;
        assert [a] + (rest + [last]) == [a] + rest + [last];
      }
    }
  }

  lemma {:induction false} ParseAllPrefix(ts: seq<string>, n: nat)
    requires n <= |ts| && ParseAll(ts[..n]).None?
    ensures ParseAll(ts).None?
    decreases |ts| - n
  {
    if n < |ts| {
      ParseAllBack(ts[..n], ts[n]);
      assert ts[..n + 1] == ts[..n] + [ts[n]];
      ParseAllPrefix(ts, n + 1);
    } else {
      assert ts[..n] == ts;
    }
  }

  method SplitAddresses(ip: string) returns (attributes: Option<seq<Attr>>)
    ensures attributes == Split(ip)
  {
    hide ParseAll, ParseAttr, Tokens;
    ParseNothing();
    var params := Tokens(ip);
    var list := [];
    for k := 0 to |params|
      invariant ParseAll(params[..k]) == Some(list)
    {
      ParseAllBack(params[..k], params[k]);
      assert params[..k + 1] == params[..k] + [params[k]];
      var a := ParseAttr(params[k]);
      if a.None? {
        ParseAllPrefix(params, k + 1);
        return None;
      }
      list := list + [a.value];
    }
    assert params[..|params|] == params;
    return Some(list);
  }

  lemma ParseNothing()
    ensures forall ts: seq<string> :: |ts| == 0 ==> ParseAll(ts) == Some([])
  {
  }
}
