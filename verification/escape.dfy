/**
  `escapeXml` of src/components/svg-download.tsx: three global replacements, `&` first,
  then `<`, then `>`. Replacing `&` first is what keeps the entities the later passes
  insert from being escaped again; the lemmas below show that the three passes amount
  to escaping each character on its own, that the output is well-formed character
  data, and that it decodes back to the input.
 */
module Escape {

  const Amp := "&amp;"
  const Lt := "&lt;"
  const Gt := "&gt;"

  /** `s.replace(/c/g, rep)` for a one-character pattern. */
  function ReplaceAll(s: string, c: char, rep: string): (r: string)
    ensures c !in s ==> r == s
    decreases |s|
  {
    if |s| == 0 then ""
    else (if s[0] == c then rep else [s[0]]) + ReplaceAll(s[1..], c, rep)
  }

  lemma {:induction false} ReplaceAllAppend(a: string, b: string, c: char, rep: string)
    ensures ReplaceAll(a + b, c, rep) == ReplaceAll(a, c, rep) + ReplaceAll(b, c, rep)
    decreases |a|
  {
    if |a| > 0 {
      assert (a + b)[1..] == a[1..] + b;
      ReplaceAllAppend(a[1..], b, c, rep);
    } else {
      assert a + b == b;
    }
  }

  /** What one global replace does to the characters and the length of a text. */
  lemma {:induction false} ReplaceAllShape(s: string, c: char, rep: string)
    ensures |rep| >= 1 ==> |ReplaceAll(s, c, rep)| >= |s|
    ensures |rep| >= 2 && c in s ==> |ReplaceAll(s, c, rep)| > |s|
    ensures forall x :: x in ReplaceAll(s, c, rep) ==> (x in s && x != c) || x in rep
    ensures forall x :: x in s && x != c ==> x in ReplaceAll(s, c, rep)
    decreases |s|
  {
    if |s| > 0 {
      ReplaceAllShape(s[1..], c, rep);
      var head := if s[0] == c then rep else [s[0]];
      assert ReplaceAll(s, c, rep) == head + ReplaceAll(s[1..], c, rep);
      assert forall x :: x in s ==> x == s[0] || x in s[1..];
    }
  }

  /**
    `escapeXml(text)`: the three passes in source order. No `<` or `>` is left, nothing
    gets shorter, and the text comes back as it is exactly when it holds none of `&`, `<`, `>`.
   */
  function EscapeXml(s: string): (r: string)
    ensures '<' !in r && '>' !in r
    ensures |r| >= |s|
    ensures r == s <==> '&' !in s && '<' !in s && '>' !in s
  {
    var s1 := ReplaceAll(s, '&', Amp);
    var s2 := ReplaceAll(s1, '<', Lt);
    ReplaceAllShape(s, '&', Amp);
    ReplaceAllShape(s1, '<', Lt);
    ReplaceAllShape(s2, '>', Gt);
    assert '<' !in Amp && '>' !in Amp && '<' !in Lt && '>' !in Lt && '<' !in Gt && '>' !in Gt;
    ReplaceAll(s2, '>', Gt)
  }

  /** The escaped form of one character. */
  function EscapeChar(c: char): string {
    if c == '&' then Amp
    else if c == '<' then Lt
    else if c == '>' then Gt
    else [c]
  }

  /** Reference definition: every character escaped on its own, the results concatenated. */
  function EscapePerChar(s: string): string
    decreases |s|
  {
    if |s| == 0 then "" else EscapeChar(s[0]) + EscapePerChar(s[1..])
  }

  lemma EscapeXmlAppend(a: string, b: string)
    ensures EscapeXml(a + b) == EscapeXml(a) + EscapeXml(b)
  {
    ReplaceAllAppend(a, b, '&', Amp);
    ReplaceAllAppend(ReplaceAll(a, '&', Amp), ReplaceAll(b, '&', Amp), '<', Lt);
    ReplaceAllAppend(ReplaceAll(ReplaceAll(a, '&', Amp), '<', Lt), ReplaceAll(ReplaceAll(b, '&', Amp), '<', Lt), '>', Gt);
  }

  lemma EscapeXmlChar(c: char)
    ensures EscapeXml([c]) == EscapeChar(c)
  {
    assert '<' !in Amp && '>' !in Amp && '>' !in Lt;
    if c == '&' {
      assert ReplaceAll([c], '&', Amp) == Amp + ReplaceAll([], '&', Amp);
    } else if c == '<' {
      assert ReplaceAll([c], '<', Lt) == Lt + ReplaceAll([], '<', Lt);
    } else if c == '>' {
      assert ReplaceAll([c], '>', Gt) == Gt + ReplaceAll([], '>', Gt);
    }
  }

  /** The three sequential passes escape each character independently. */
  lemma {:induction false} EscapeXmlIsPerChar(s: string)
    ensures EscapeXml(s) == EscapePerChar(s)
    decreases |s|
  {
    if |s| > 0 {
      assert s == [s[0]] + s[1..];
      EscapeXmlAppend([s[0]], s[1..]);
      EscapeXmlChar(s[0]);
      EscapeXmlIsPerChar(s[1..]);
    }
  }

  /** `u` begins with `p`. */
  predicate StartsWith(u: string, p: string) {
    |p| <= |u| && u[..|p|] == p
  }

  /** `u` begins with one of the three entities `escapeXml` writes. */
  predicate StartsWithEntity(u: string) {
    StartsWith(u, Amp) || StartsWith(u, Lt) || StartsWith(u, Gt)
  }

  /** Character data as `escapeXml` leaves it: no `<` or `>`, and every `&` opens one of the three entities. */
  predicate WellEscaped(t: string) {
    && (forall i :: 0 <= i < |t| ==> t[i] != '<' && t[i] != '>')
    && (forall i :: 0 <= i < |t| && t[i] == '&' ==> StartsWithEntity(t[i..]))
  }

  /** Decodes the three entities, left to right; every other character stands for itself. */
  function Unescape(t: string): string
    decreases |t|
  {
    if |t| == 0 then ""
    else if StartsWith(t, Amp) then "&" + Unescape(t[|Amp|..])
    else if StartsWith(t, Lt) then "<" + Unescape(t[|Lt|..])
    else if StartsWith(t, Gt) then ">" + Unescape(t[|Gt|..])
    else [t[0]] + Unescape(t[1..])
  }

  /** An entity at the front decodes to its character, provided no entity tested before it also matches. */
  lemma UnescapeEntityHead(e: string, c: char, rest: string)
    requires (e == Amp && c == '&') || (e == Lt && c == '<') || (e == Gt && c == '>')
    ensures Unescape(e + rest) == [c] + Unescape(rest)
  {
    var u := e + rest;
    assert u[..|e|] == e;
    assert u[|e|..] == rest;
    assert u[1] == e[1];
    if e != Amp {
      assert !StartsWith(u, Amp) by { assert Amp[1] == 'a' && e[1] != 'a'; }
    }
    if e == Gt {
      assert !StartsWith(u, Lt) by { assert Lt[1] == 'l' && e[1] != 'l'; }
    }
  }

  lemma UnescapeHead(c: char, rest: string)
    ensures Unescape(EscapeChar(c) + rest) == [c] + Unescape(rest)
  {
    if c == '&' {
      UnescapeEntityHead(Amp, c, rest);
    } else if c == '<' {
      UnescapeEntityHead(Lt, c, rest);
    } else if c == '>' {
      UnescapeEntityHead(Gt, c, rest);
    } else {
      var u := [c] + rest;
      assert u[0] == c && u[1..] == rest;
      assert !StartsWith(u, Amp) && !StartsWith(u, Lt) && !StartsWith(u, Gt);
    }
  }

  /** Decoding undoes the escaping. */
  lemma {:induction false} UnescapeEscape(s: string)
    ensures Unescape(EscapeXml(s)) == s
    decreases |s|
  {
    EscapeXmlIsPerChar(s);
    if |s| > 0 {
      EscapeXmlIsPerChar(s[1..]);
      UnescapeEscape(s[1..]);
      UnescapeHead(s[0], EscapePerChar(s[1..]));
      assert s == [s[0]] + s[1..];
    }
  }

  /** Escaping is injective: different texts never produce the same markup. */
  lemma EscapeXmlInjective(a: string, b: string)
    requires EscapeXml(a) == EscapeXml(b)
    ensures a == b
  {
    UnescapeEscape(a);
    UnescapeEscape(b);
  }

  lemma WellEscapedPrepend(e: string, rest: string)
    requires WellEscaped(rest)
    requires WellEscaped(e)
    requires forall i :: 0 <= i < |e| && e[i] == '&' ==> StartsWithEntity(e[i..] + rest)
    ensures WellEscaped(e + rest)
  {
    var u := e + rest;
    forall i | 0 <= i < |u| && u[i] == '&'
      ensures StartsWithEntity(u[i..])
    {
      if i < |e| {
        assert u[i..] == e[i..] + rest;
      } else {
        assert u[i..] == rest[i - |e|..];
      }
    }
  }

  /** One escaped character is well-formed, and an `&` in it opens an entity whatever follows. */
  lemma EscapeCharWellEscaped(c: char, rest: string)
    ensures WellEscaped(EscapeChar(c))
    ensures forall i :: 0 <= i < |EscapeChar(c)| && EscapeChar(c)[i] == '&' ==> StartsWithEntity(EscapeChar(c)[i..] + rest)
  {
    var e := EscapeChar(c);
    assert forall i :: 1 <= i < |e| ==> e[i] != '&' && e[i] != '<' && e[i] != '>';
    assert (e + rest)[..|e|] == e;
    assert e[0..] == e;
  }

  /** The output is well-formed character data: no `<` or `>` survives, and every `&` begins an entity. */
  lemma {:induction false} EscapeXmlWellEscaped(s: string)
    ensures WellEscaped(EscapeXml(s))
    decreases |s|
  {
    EscapeXmlIsPerChar(s);
    if |s| > 0 {
      EscapeXmlIsPerChar(s[1..]);
      EscapeXmlWellEscaped(s[1..]);
      var e, rest := EscapeChar(s[0]), EscapePerChar(s[1..]);
      EscapeCharWellEscaped(s[0], rest);
      WellEscapedPrepend(e, rest);
    }
  }

  /** How many characters of `t` the first decoding step consumes. */
  function HeadLength(t: string): nat {
    if StartsWith(t, Amp) then |Amp| else if StartsWith(t, Lt) then |Lt| else if StartsWith(t, Gt) then |Gt| else 1
  }

  /** The character the first decoding step produces. */
  function HeadChar(t: string): char
    requires |t| > 0
  {
    if StartsWith(t, Amp) then '&' else if StartsWith(t, Lt) then '<' else if StartsWith(t, Gt) then '>' else t[0]
  }

  /** An entity at the front is read back as the character it escapes. */
  lemma EntityHead(t: string)
    requires StartsWithEntity(t)
    ensures HeadLength(t) <= |t|
    ensures Unescape(t) == [HeadChar(t)] + Unescape(t[HeadLength(t)..])
    ensures EscapeChar(HeadChar(t)) == t[..HeadLength(t)]
  {
    if StartsWith(t, Amp) {
      EntityAt(t, Amp, '&');
    } else if StartsWith(t, Lt) {
      EntityAt(t, Lt, '<');
    } else {
      EntityAt(t, Gt, '>');
    }
  }

  /** The entity `e` for `c` at the front of `t`: decoding reads `c` and resumes after the entity. */
  lemma EntityAt(t: string, e: string, c: char)
    requires (e == Amp && c == '&') || (e == Lt && c == '<') || (e == Gt && c == '>')
    requires StartsWith(t, e)
    ensures HeadLength(t) == |e| && HeadChar(t) == c
    ensures Unescape(t) == [c] + Unescape(t[|e|..])
  {
    var rest := t[|e|..];
    assert t == e + rest;
    UnescapeEntityHead(e, c, rest);
    if e != Amp {
      assert !StartsWith(t, Amp) by { assert Amp[1] == 'a' && t[1] == e[1] && e[1] != 'a'; }
    }
    if e == Gt {
      assert !StartsWith(t, Lt) by { assert Lt[1] == 'l' && t[1] == e[1] && e[1] != 'l'; }
    }
  }

  /** Any other character at the front is read back as itself. */
  lemma PlainHead(t: string)
    requires |t| > 0 && !StartsWithEntity(t)
    requires t[0] != '&' && t[0] != '<' && t[0] != '>'
    ensures HeadLength(t) == 1 && HeadChar(t) == t[0]
    ensures Unescape(t) == [HeadChar(t)] + Unescape(t[HeadLength(t)..])
    ensures EscapeChar(HeadChar(t)) == t[..HeadLength(t)]
  {
    assert t[..1] == [t[0]];
  }

  /** In well-formed data the first decoding step reads back one escaped character. */
  lemma WellEscapedHead(t: string)
    requires |t| > 0 && WellEscaped(t)
    ensures HeadLength(t) <= |t|
    ensures Unescape(t) == [HeadChar(t)] + Unescape(t[HeadLength(t)..])
    ensures EscapeChar(HeadChar(t)) == t[..HeadLength(t)]
  {
    if StartsWithEntity(t) {
      EntityHead(t);
    } else {
      assert t[0] != '<' && t[0] != '>';
      assert t[0] != '&' by {
        assert t[0..] == t;
      }
      PlainHead(t);
    }
  }

  /** A suffix of well-formed data is well-formed. */
  lemma WellEscapedSuffix(t: string, n: nat)
    requires WellEscaped(t) && n <= |t|
    ensures WellEscaped(t[n..])
  {
    forall i | 0 <= i < |t[n..]| && t[n..][i] == '&'
      ensures StartsWithEntity(t[n..][i..])
    {
      assert t[n..][i..] == t[n + i..];
    }
  }

  /** Per-character escaping rebuilds well-formed character data from its decoding. */
  lemma {:induction false} PerCharUnescape(t: string)
    requires WellEscaped(t)
    ensures EscapePerChar(Unescape(t)) == t
    decreases |t|
  {
    if |t| > 0 {
      var n, c := HeadLength(t), HeadChar(t);
      WellEscapedHead(t);
      WellEscapedSuffix(t, n);
      var u := Unescape(t[n..]);
      PerCharUnescape(t[n..]);
      assert ([c] + u)[0] == c && ([c] + u)[1..] == u;
      assert t == t[..n] + t[n..];
    }
  }

  /** Well-formed character data escapes back to itself once decoded: escaping is onto the well-escaped strings. */
  lemma EscapeUnescape(t: string)
    requires WellEscaped(t)
    ensures EscapeXml(Unescape(t)) == t
  {
    PerCharUnescape(t);
    EscapeXmlIsPerChar(Unescape(t));
  }

  /** Text free of `&`, `<` and `>` is written as it is. */
  lemma EscapePlainText(s: string)
    requires '&' !in s && '<' !in s && '>' !in s
    ensures EscapeXml(s) == s
  {
  }

  /** Escaping a text cut at one character: the parts are escaped separately around the character's own escape. */
  lemma EscapeAround(x: string, ch: char, y: string)
    ensures EscapeXml(x + [ch] + y) == EscapeXml(x) + EscapeChar(ch) + EscapeXml(y)
  {
    EscapeXmlAppend(x + [ch], y);
    EscapeXmlAppend(x, [ch]);
    EscapeXmlChar(ch);
  }

  /** A text none of whose characters is `&`, `<` or `>` escapes to itself. */
  lemma PlainChars(s: string)
    requires forall i :: 0 <= i < |s| ==> s[i] != '&' && s[i] != '<' && s[i] != '>'
    ensures EscapeXml(s) == s
  {
    assert '&' !in s && '<' !in s && '>' !in s;
  }

  /** `A & B < C` is written `A &amp; B &lt; C`. */
  lemma EscapeExample(a: string, b: string, c: string)
    requires a == "A " && b == " B " && c == " C"
    ensures EscapeXml(a + "&" + b + "<" + c) == a + Amp + b + Lt + c
  {
    var y := b + ['<'] + c;
    assert a + "&" + b + "<" + c == a + ['&'] + y;
    PlainChars(a);
    PlainChars(b);
    PlainChars(c);
    EscapeAround(b, '<', c);
    EscapeAround(a, '&', y);
  }
}
