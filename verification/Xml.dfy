/** The escaping of the JUnit report's attribute values. */
module Xml {
  import opened Protocol

  /** Every occurrence of one character replaced by a text. */
  function Replace(s: Str, c: Char8, with: Str): Str {
    if s == [] then [] else (if s[0] == c then with else [s[0]]) + Replace(s[1..], c, with)
  }

  /** Four passes; the ampersand goes first, so that the entities of the others stay as they are. */
  function XmlEscape(s: Str): Str {
    Replace(Replace(Replace(Replace(s, '&', "&amp;"), '<', "&lt;"), '>', "&gt;"), '"', "&quot;")
  }

  lemma {:induction false} ReplaceConcat(a: Str, b: Str, c: Char8, with: Str)
    ensures Replace(a + b, c, with) == Replace(a, c, with) + Replace(b, c, with)
  {
    if a == [] {
      EmptyIsNeutral(b);
      EmptyIsNeutral(Replace(b, c, with));
    } else {
      assert (a + b)[1..] == a[1..] + b;
      ReplaceConcat(a[1..], b, c, with);
      Associative(if a[0] == c then with else [a[0]], Replace(a[1..], c, with), Replace(b, c, with));
    }
  }

  lemma {:induction false} ReplaceAbsent(s: Str, c: Char8, with: Str)
    requires c !in s
    ensures Replace(s, c, with) == s
  {
    if s == [] {
    } else {
      ReplaceAbsent(s[1..], c, with);
    }
  }

  lemma ReplaceOne(x: Char8, c: Char8, with: Str)
    ensures Replace([x], c, with) == if x == c then with else [x]
  {
  }

  lemma EscapeConcat(a: Str, b: Str)
    ensures XmlEscape(a + b) == XmlEscape(a) + XmlEscape(b)
  {
    var a1, b1 := Replace(a, '&', "&amp;"), Replace(b, '&', "&amp;");
    var a2, b2 := Replace(a1, '<', "&lt;"), Replace(b1, '<', "&lt;");
    ReplaceConcat(a, b, '&', "&amp;");
    ReplaceConcat(a1, b1, '<', "&lt;");
    ReplaceConcat(a2, b2, '>', "&gt;");
    ReplaceConcat(Replace(a2, '>', "&gt;"), Replace(b2, '>', "&gt;"), '"', "&quot;");
  }

  /** The text of one character. */
  function Entity(c: Char8): Str {
    if c == '&' then "&amp;"
    else if c == '<' then "&lt;"
    else if c == '>' then "&gt;"
    else if c == '"' then "&quot;"
    else [c]
  }

  /** An entity passes the later passes unchanged. */
  lemma LaterPasses(entity: Str)
    requires '<' !in entity && '>' !in entity && '"' !in entity
    ensures Replace(Replace(Replace(entity, '<', "&lt;"), '>', "&gt;"), '"', "&quot;") == entity
  {
  }

  lemma EscapeLess()
    ensures XmlEscape("<") == "&lt;"
  {
    ReplaceOne('<', '&', "&amp;");
    ReplaceOne('<', '<', "&lt;");
    ReplaceAbsent("&lt;", '>', "&gt;");
    ReplaceAbsent("&lt;", '"', "&quot;");
  }

  lemma EscapeGreater()
    ensures XmlEscape(">") == "&gt;"
  {
    ReplaceOne('>', '&', "&amp;");
    ReplaceOne('>', '<', "&lt;");
    ReplaceOne('>', '>', "&gt;");
    ReplaceAbsent("&gt;", '"', "&quot;");
  }

  lemma EscapeQuote()
    ensures XmlEscape(['"']) == "&quot;"
  {
    ReplaceOne('"', '&', "&amp;");
    ReplaceOne('"', '<', "&lt;");
    ReplaceOne('"', '>', "&gt;");
    ReplaceOne('"', '"', "&quot;");
  }

  lemma EscapeOne(c: Char8)
    ensures XmlEscape([c]) == Entity(c)
  {
    if c == '<' {
      EscapeLess();
    } else if c == '>' {
      EscapeGreater();
    } else if c == '"' {
      EscapeQuote();
    } else {
      ReplaceOne(c, '&', "&amp;");
      LaterPasses(Entity(c));
    }
  }

  /** The character whose entity a text begins with. */
  function Named(s: Str): (c: Option<Char8>)
    ensures c.Some? ==> Entity(c.value) <= s && Entity(c.value) != []
  {
    if "&amp;" <= s then Some('&')
    else if "&lt;" <= s then Some('<')
    else if "&gt;" <= s then Some('>')
    else if "&quot;" <= s then Some('"')
    else None
  }

  /** The reader's side: every entity stands for its character. */
  function Unescape(s: Str): Str
    decreases |s|
  {
    if s == [] then []
    else
      var c := Named(s);
      if c.Some? then [c.value] + Unescape(s[|Entity(c.value)|..]) else [s[0]] + Unescape(s[1..])
  }

  lemma NamedEntity(c: Char8, rest: Str)
    ensures Named(Entity(c) + rest) == if Entity(c) == [c] then None else Some(c)
  {
    var s, e := Entity(c) + rest, Entity(c);
    assert e <= s && s[0] == e[0];
    if |e| > 1 {
      assert s[1] == e[1];
    }
  }

  lemma UnescapeEntity(c: Char8, rest: Str)
    ensures Unescape(Entity(c) + rest) == [c] + Unescape(rest)
  {
    NamedEntity(c, rest);
    assert (Entity(c) + rest)[|Entity(c)|..] == rest;
  }

  predicate MarkupFree(s: Str) {
    '<' !in s && '>' !in s && '"' !in s
  }

  lemma EscapeCons(s: Str)
    requires s != []
    ensures XmlEscape(s) == Entity(s[0]) + XmlEscape(s[1..])
  {
    assert s == [s[0]] + s[1..];
    EscapeConcat([s[0]], s[1..]);
    EscapeOne(s[0]);
  }

  lemma OneMore(c: Char8, s: Str, rest: Str)
    requires Unescape(rest) == s
    ensures Unescape(Entity(c) + rest) == [c] + s
  {
    UnescapeEntity(c, rest);
  }

  lemma OneMoreFree(c: Char8, rest: Str)
    requires MarkupFree(rest)
    ensures MarkupFree(Entity(c) + rest)
  {
  }

  /** No raw markup character is left, and a reader gets the original text back, whatever it contained. */
  lemma {:induction false} EscapeRoundTrip(s: Str)
    ensures Unescape(XmlEscape(s)) == s && MarkupFree(XmlEscape(s))
  {
    if s == [] {
    } else {
      EscapeRoundTrip(s[1..]);
      EscapeCons(s);
      OneMore(s[0], s[1..], XmlEscape(s[1..]));
      OneMoreFree(s[0], XmlEscape(s[1..]));
    }
  }
}
