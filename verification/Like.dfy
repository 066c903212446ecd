// Like.dfy: prefix search by name through an escaped LIKE pattern.
module Like {
  // One pass over the text: the three special characters get a backslash in front.
  function EscapeLike(q: string): string {
    if q == "" then ""
    else (if q[0] in {'\\', '%', '_'} then ['\\', q[0]] else [q[0]]) + EscapeLike(q[1..])
  }

  // s like p escape '\': % is any text, _ any one character, \c the character c.
  predicate Matches(s: string, p: string)
    decreases |p|, |s|
  {
    if p == "" then s == ""
    else if p[0] == '%' then Matches(s, p[1..]) || (s != "" && Matches(s[1..], p))
    else if p[0] == '_' then s != "" && Matches(s[1..], p[1..])
    else if p[0] == '\\' then |p| > 1 && s != "" && s[0] == p[1] && Matches(s[1..], p[2..])
    else s != "" && s[0] == p[0] && Matches(s[1..], p[1..])
  }

  lemma {:induction false} PercentMatchesAll(s: string)
    ensures Matches(s, "%")
    decreases |s|
  {
    if s == "" {
      assert "%"[1..] == "";
    } else {
      PercentMatchesAll(s[1..]);
    }
  }

  lemma EscapedHead(q: string, p: string)
    requires q != ""
    ensures var t := EscapeLike(q) + p;
      if q[0] in {'\\', '%', '_'}
      then |t| > 1 && t[0] == '\\' && t[1] == q[0] && t[2..] == EscapeLike(q[1..]) + p
      else t != "" && t[0] == q[0] && t[1..] == EscapeLike(q[1..]) + p
  {
    var head := if q[0] in {'\\', '%', '_'} then ['\\', q[0]] else [q[0]];
    DropHead(head, EscapeLike(q[1..]), p);
  }

  lemma DropHead(head: string, rest: string, p: string)
    ensures head + rest + p == head + (rest + p)
    ensures (head + (rest + p))[|head|..] == rest + p
  {
  }

  // An escaped text in front of any pattern matches itself and nothing else.
  lemma {:induction false} EscapedIsLiteral(s: string, q: string, p: string)
    ensures Matches(s, EscapeLike(q) + p) <==> q <= s && Matches(s[|q|..], p)
    decreases |q|
  {
    if q == "" {
      assert EscapeLike(q) + p == p && s[0..] == s;
    } else {
      EscapedHead(q, p);
      if s != "" && s[0] == q[0] {
        EscapedIsLiteral(s[1..], q[1..], p);
        assert q <= s <==> q[1..] <= s[1..];
        if q <= s { assert s[1..][|q[1..]|..] == s[|q|..]; }
      }
    }
  }

  // The name search finds exactly the names that start with what was typed.
  lemma PrefixSearch(s: string, q: string)
    ensures Matches(s, EscapeLike(q) + "%") <==> q <= s
  {
    EscapedIsLiteral(s, q, "%");
    if q <= s { PercentMatchesAll(s[|q|..]); }
  }

  // Without a wildcard behind it the escaped text is an equality test, so no two
  // queries share a pattern.
  lemma EscapeIsInjective(q: string, r: string)
    ensures EscapeLike(q) == EscapeLike(r) ==> q == r
  {
    EscapedIsLiteral(q, q, "");
    EscapedIsLiteral(q, r, "");
    assert EscapeLike(q) + "" == EscapeLike(q) && EscapeLike(r) + "" == EscapeLike(r);
    assert q[|q|..] == "";
  }
}
