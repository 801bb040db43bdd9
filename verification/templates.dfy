/**
  Placeholder scanning and template substitution.

  Both `replaceTemplates` and the tag extractor run the global regular expression
  `\{\{([^}]+)\}\}` over a field. The scan is modelled once, as a tokeniser that
  walks the text left to right and cuts it into literal characters and
  placeholders; substitution renders the tokens, extraction collects their keys.
 */
module Templates {
  import opened Results
  import opened Strings

  /** A piece of scanned template text. */
  datatype Token = Literal(c: char) | Placeholder(key: string)

  /** The declarative reading of the pattern anchored at the front of `s`, with a key of length `n`. */
  ghost predicate PatternMatches(s: string, n: int) {
    && 0 < n && n + 4 <= |s|
    && s[0] == '{' && s[1] == '{'
    && (forall i :: 2 <= i < n + 2 ==> s[i] != '}')
    && s[n + 2] == '}' && s[n + 3] == '}'
  }

  /** Length of the longest prefix of `s` free of `}`: what the greedy `[^}]+` consumes. */
  function KeyRun(s: string): (n: nat)
    ensures n <= |s|
    ensures forall i :: 0 <= i < n ==> s[i] != '}'
    ensures n < |s| ==> s[n] == '}'
  {
    if |s| == 0 || s[0] == '}' then 0 else 1 + KeyRun(s[1..])
  }

  /** The key length of the match anchored at the front of `s`, if the pattern matches there. */
  function MatchAt(s: string): (m: Option<nat>)
    ensures m.Some? ==> PatternMatches(s, m.value)
  {
    if |s| >= 2 && s[0] == '{' && s[1] == '{' then
      var n := KeyRun(s[2..]);
      if n > 0 && n + 4 <= |s| && s[n + 3] == '}' then Some(n) else None
    else None
  }

  /** The pattern matches at the front of `s` exactly when `MatchAt` finds it, and the key length is unique. */
  lemma MatchAtComplete(s: string, n: int)
    ensures PatternMatches(s, n) <==> MatchAt(s) == Some(n)
  {
    if PatternMatches(s, n) {
      assert forall i :: 0 <= i < n ==> s[2..][i] == s[i + 2];
    }
  }

  /** The left-to-right scan of a global regular-expression search. */
  function Tokens(s: string): (ts: seq<Token>)
    ensures forall i :: 0 <= i < |ts| && ts[i].Placeholder? ==> |ts[i].key| > 0 && '}' !in ts[i].key
    decreases |s|
  {
    if |s| == 0 then []
    else match MatchAt(s)
      case Some(n) =>
        [Placeholder(s[2..n + 2])] + Tokens(s[n + 4..])
      case None => [Literal(s[0])] + Tokens(s[1..])
  }

  /** The text a placeholder occupies. */
  function PlaceholderText(key: string): string {
    "{{" + key + "}}"
  }

  /** The text one token occupies. */
  function TokenText(t: Token): string {
    match t
    case Literal(c) => [c]
    case Placeholder(k) => PlaceholderText(k)
  }

  /** Writes tokens back out as text. */
  function Unparse(ts: seq<Token>): string {
    if |ts| == 0 then "" else TokenText(ts[0]) + Unparse(ts[1..])
  }

  lemma UnparseCons(t: Token, ts: seq<Token>)
    ensures Unparse([t] + ts) == TokenText(t) + Unparse(ts)
  {
    assert ([t] + ts)[1..] == ts;
  }

  /** A matched placeholder, written back, is exactly the text it was scanned from. */
  lemma PlaceholderAt(s: string, n: nat)
    requires MatchAt(s) == Some(n)
    ensures PlaceholderText(s[2..n + 2]) + s[n + 4..] == s
  {
    assert s[..2] == "{{";
    assert s[n + 2..n + 4] == "}}";
    assert s == s[..2] + s[2..n + 2] + s[n + 2..n + 4] + s[n + 4..];
  }

  /** Scanning loses nothing: unparsing the tokens gives back the text. */
  lemma {:induction false} UnparseTokens(s: string)
    ensures Unparse(Tokens(s)) == s
    decreases |s|
  {
    if |s| > 0 {
      match MatchAt(s)
      case Some(n) =>
        UnparseTokens(s[n + 4..]);
        UnparseCons(Placeholder(s[2..n + 2]), Tokens(s[n + 4..]));
        PlaceholderAt(s, n);
      case None =>
        UnparseTokens(s[1..]);
        UnparseCons(Literal(s[0]), Tokens(s[1..]));
        assert s == [s[0]] + s[1..];
    }
  }

  /** What one placeholder becomes: the record's value when present and non-empty (JavaScript `data[key] || match`). */
  function Resolve(key: string, data: map<string, string>): (r: string)
    ensures r != ""
    ensures key in data && data[key] != "" ==> r == data[key]
    ensures r == PlaceholderText(key) || (key in data && r == data[key])
  {
    if key in data && data[key] != "" then data[key] else PlaceholderText(key)
  }

  /** What one token becomes: a literal character stays, a placeholder is resolved. */
  function RenderToken(t: Token, data: map<string, string>): (r: string)
    ensures r != ""
    ensures t.Literal? ==> r == [t.c]
    ensures t.Placeholder? ==> r == Resolve(t.key, data)
  {
    match t
    case Literal(c) => [c]
    case Placeholder(k) => Resolve(k, data)
  }

  /** Renders tokens, replacing each placeholder by its resolved value; no token renders to nothing. */
  function Render(ts: seq<Token>, data: map<string, string>): (r: string)
    ensures |r| >= |ts|
  {
    if |ts| == 0 then "" else RenderToken(ts[0], data) + Render(ts[1..], data)
  }

  /** No key among `keys` has a non-empty value in the record, so `data[key] || match` always falls back to the match. */
  predicate NoneResolves(keys: seq<string>, data: map<string, string>) {
    forall k :: k in keys ==> k !in data || data[k] == ""
  }

  /** `replaceTemplates(text, data)`: one pass of the global replace; inserted values are never rescanned. */
  function ReplaceTemplates(text: string, data: map<string, string>): (r: string)
    ensures NoneResolves(Keys(text), data) ==> r == text
  {
    RenderUnresolved(Tokens(text), data);
    UnparseTokens(text);
    Render(Tokens(text), data)
  }

  /** Keys of the placeholders among `ts`, in order. */
  function TokenKeys(ts: seq<Token>): (ks: seq<string>)
    ensures forall k :: k in ks <==> exists i :: 0 <= i < |ts| && ts[i] == Placeholder(k)
  {
    if |ts| == 0 then []
    else
      var rest := TokenKeys(ts[1..]);
      assert forall i :: 1 <= i < |ts| ==> ts[i] == ts[1..][i - 1];
      if ts[0].Placeholder? then [ts[0].key] + rest else rest
  }

  /** The captured groups `match[1]` of the global search over `text`, in order. */
  function Keys(text: string): (ks: seq<string>)
    ensures forall k :: k in ks ==> |k| > 0 && '}' !in k
  {
    TokenKeys(Tokens(text))
  }

  /** Rendering changes nothing when no key among the tokens resolves. */
  lemma {:induction false} RenderUnresolved(ts: seq<Token>, data: map<string, string>)
    ensures NoneResolves(TokenKeys(ts), data) ==> Render(ts, data) == Unparse(ts)
    decreases |ts|
  {
    if |ts| > 0 && NoneResolves(TokenKeys(ts), data) {
      assert forall k :: k in TokenKeys(ts[1..]) ==> k in TokenKeys(ts);
      RenderUnresolved(ts[1..], data);
      if ts[0].Placeholder? {
        assert ts[0].key in TokenKeys(ts);
      }
    }
  }

  /** With an empty record every text comes back unchanged. */
  lemma ReplaceEmptyRecord(text: string)
    ensures ReplaceTemplates(text, map[]) == text
  {
  }

  /** `s` contains the two-character sequence `a b` somewhere. */
  predicate HasPair(s: string, a: char, b: char) {
    exists i :: 0 <= i < |s| - 1 && s[i] == a && s[i + 1] == b
  }

  /** Without an opening `{{` or a closing `}}` the text holds no placeholder. */
  lemma {:induction false} NoPairNoPlaceholder(text: string)
    requires !HasPair(text, '{', '{') || !HasPair(text, '}', '}')
    ensures Keys(text) == []
    decreases |text|
  {
    if |text| > 0 {
      match MatchAt(text)
      case Some(n) =>
        assert false;
      case None =>
        if HasPair(text[1..], '{', '{') {
          var i :| 0 <= i < |text[1..]| - 1 && text[1..][i] == '{' && text[1..][i + 1] == '{';
          assert text[i + 1] == '{' && text[i + 2] == '{';
        }
        if HasPair(text[1..], '}', '}') {
          var i :| 0 <= i < |text[1..]| - 1 && text[1..][i] == '}' && text[1..][i + 1] == '}';
          assert text[i + 1] == '}' && text[i + 2] == '}';
        }
        NoPairNoPlaceholder(text[1..]);
    }
  }

  /** Text with no `{{` (or no `}}`) is returned unchanged whatever the record. */
  lemma ReplaceWithoutPlaceholders(text: string, data: map<string, string>)
    requires !HasPair(text, '{', '{') || !HasPair(text, '}', '}')
    ensures ReplaceTemplates(text, data) == text
  {
    NoPairNoPlaceholder(text);
  }

  /** `{{}}` is not a placeholder: the key must be non-empty. */
  lemma EmptyBracesStay(data: map<string, string>)
    ensures Keys("{{}}") == []
    ensures ReplaceTemplates("{{}}", data) == "{{}}"
  {
    var s := "{{}}";
    assert KeyRun(s[2..]) == 0;
    assert MatchAt(s) == None;
    assert s[1..] == "{}}";
    assert MatchAt(s[1..]) == None;
    assert Tokens("{}}") == [Literal('{'), Literal('}'), Literal('}')] by {
      assert "{}}"[1..] == "}}";
      assert "}}"[1..] == "}";
      assert "}"[1..] == "";
    }
    assert Tokens(s) == [Literal('{'), Literal('{'), Literal('}'), Literal('}')];
  }

  /** A first character that opens no placeholder (any character but `{`, or a `{` the pattern does not complete) passes through, and the scan continues after it. */
  lemma ReplaceUnmatchedHead(s: string, data: map<string, string>)
    requires |s| > 0 && MatchAt(s).None?
    ensures ReplaceTemplates(s, data) == [s[0]] + ReplaceTemplates(s[1..], data)
  {
    assert Tokens(s) == [Literal(s[0])] + Tokens(s[1..]);
    RenderAppend([Literal(s[0])], Tokens(s[1..]), data);
    assert Render([Literal(s[0])], data) == [s[0]] by {
      assert Render([Literal(s[0])], data) == RenderToken(Literal(s[0]), data) + Render([], data);
    }
  }

  /** `{{a}` opens no placeholder: the scan finds no closing `}}`, so the text is kept. */
  lemma UnclosedBraceExample(s: string, data: map<string, string>)
    requires s == "{{a}"
    ensures MatchAt(s).None?
    ensures ReplaceTemplates(s, data) == s
  {
    assert s[2..] == "a}" && KeyRun("a}") == 1;
    assert !HasPair(s, '}', '}');
    ReplaceWithoutPlaceholders(s, data);
  }

  /** Empty braces before a placeholder stay as typed while the placeholder after them is still replaced. */
  lemma EmptyBracesThenPlaceholder(key: string, data: map<string, string>)
    requires |key| > 0 && '}' !in key
    ensures ReplaceTemplates("{{}}x" + PlaceholderText(key), data) == "{{}}x" + Resolve(key, data)
  {
    var rest := "}}x" + PlaceholderText(key);
    var v := Resolve(key, data);
    assert rest[0] == '}';
    ReplaceBraceHead("{" + rest, data);
    ReplaceBraceHead(rest, data);
    ReplaceAfterPrefix("}}x", key, data);
    AppendAssoc("{", "}}x", v);
    AppendAssoc("{", "{}}x", v);
    AppendAssoc("{", "}}x", PlaceholderText(key));
    AppendAssoc("{", "{}}x", PlaceholderText(key));
    BracesSpelled();
  }

  /** A `{` followed by `}`, or by `{` and then `}`, opens no placeholder and is written as it is. */
  lemma ReplaceBraceHead(x: string, data: map<string, string>)
    requires (|x| > 0 && x[0] == '}') || (|x| > 1 && x[0] == '{' && x[1] == '}')
    ensures ReplaceTemplates("{" + x, data) == "{" + ReplaceTemplates(x, data)
  {
    var s := "{" + x;
    assert s[1..] == x;
    if x[0] == '{' {
      assert s[2..][0] == '}';
    }
    ReplaceUnmatchedHead(s, data);
  }

  /** `{{}}x` spelled one brace at a time. */
  lemma BracesSpelled()
    ensures "{" + "}}x" == "{}}x" && "{" + "{}}x" == "{{}}x"
  {
  }

  /** A character other than `{` cannot open a placeholder, so it passes through and the scan moves on. */
  lemma ReplaceLiteralHead(c: char, t: string, data: map<string, string>)
    requires c != '{'
    ensures ReplaceTemplates([c] + t, data) == [c] + ReplaceTemplates(t, data)
  {
    var s := [c] + t;
    assert MatchAt(s) == None;
    assert s[1..] == t;
    assert Tokens(s) == [Literal(c)] + Tokens(t);
    assert Tokens(s)[1..] == Tokens(t);
  }

  /** A well-formed placeholder at the front of a text matches with its own key length. */
  lemma MatchPlaceholder(key: string, t: string)
    requires |key| > 0 && '}' !in key
    ensures MatchAt(PlaceholderText(key) + t) == Some(|key|)
    ensures (PlaceholderText(key) + t)[2..|key| + 2] == key
    ensures (PlaceholderText(key) + t)[|key| + 4..] == t
  {
    var s := PlaceholderText(key) + t;
    var r := s[2..];
    assert r == key + "}}" + t;
    assert r[|key|] == '}';
    assert forall i :: 0 <= i < |key| ==> r[i] == key[i];
    assert KeyRun(r) == |key|;
  }

  /** A well-formed placeholder at the front of a text is scanned as one token, and the scan resumes right after it. */
  lemma TokensPlaceholderHead(key: string, t: string)
    requires |key| > 0 && '}' !in key
    ensures Tokens(PlaceholderText(key) + t) == [Placeholder(key)] + Tokens(t)
    ensures Keys(PlaceholderText(key) + t) == [key] + Keys(t)
  {
    MatchPlaceholder(key, t);
    var ts := Tokens(PlaceholderText(key) + t);
    assert ts == [Placeholder(key)] + Tokens(t);
    assert ts[1..] == Tokens(t);
  }

  /** A placeholder whose key is bound to a non-empty value is replaced by that value. */
  lemma ReplaceSinglePlaceholder(key: string, data: map<string, string>)
    requires |key| > 0 && '}' !in key
    ensures ReplaceTemplates(PlaceholderText(key), data) == Resolve(key, data)
  {
    var ts := Tokens(PlaceholderText(key));
    assert ts == [Placeholder(key)] by {
      TokensPlaceholderHead(key, "");
      assert PlaceholderText(key) + "" == PlaceholderText(key);
    }
    assert Render(ts, data) == RenderToken(ts[0], data) + Render(ts[1..], data);
  }

  /** The literal tokens of `p`, one per character. */
  function Literals(p: string): (ts: seq<Token>)
    ensures |ts| == |p|
  {
    if |p| == 0 then [] else [Literal(p[0])] + Literals(p[1..])
  }

  /** Without `{`, a prefix scans to one literal per character, and the scan of the rest is unaffected. */
  lemma {:induction false} TokensLiteralPrefix(p: string, t: string)
    requires '{' !in p
    ensures Tokens(p + t) == Literals(p) + Tokens(t)
    decreases |p|
  {
    if |p| > 0 {
      var s := p + t;
      assert s[0] == p[0] && s[1..] == p[1..] + t;
      assert MatchAt(s) == None;
      TokensLiteralPrefix(p[1..], t);
    } else {
      assert p + t == t;
    }
  }

  lemma {:induction false} RenderAppend(a: seq<Token>, b: seq<Token>, data: map<string, string>)
    ensures Render(a + b, data) == Render(a, data) + Render(b, data)
    decreases |a|
  {
    if |a| > 0 {
      assert (a + b)[0] == a[0] && (a + b)[1..] == a[1..] + b;
      RenderAppend(a[1..], b, data);
    } else {
      assert a + b == b;
    }
  }

  lemma {:induction false} RenderLiterals(p: string, data: map<string, string>)
    ensures Render(Literals(p), data) == p
    decreases |p|
  {
    if |p| > 0 {
      RenderLiterals(p[1..], data);
      assert Literals(p)[1..] == Literals(p[1..]);
    }
  }

  /** A prefix without `{` passes through untouched and does not disturb the scan of what follows it. */
  lemma ReplaceLiteralPrefix(p: string, t: string, data: map<string, string>)
    requires '{' !in p
    ensures ReplaceTemplates(p + t, data) == p + ReplaceTemplates(t, data)
  {
    TokensLiteralPrefix(p, t);
    RenderAppend(Literals(p), Tokens(t), data);
    RenderLiterals(p, data);
  }

  /** A placeholder after a prefix without `{`: the prefix stays and the placeholder resolves. */
  lemma ReplaceAfterPrefix(p: string, key: string, data: map<string, string>)
    requires '{' !in p && |key| > 0 && '}' !in key
    ensures ReplaceTemplates(p + PlaceholderText(key), data) == p + Resolve(key, data)
  {
    ReplaceSinglePlaceholder(key, data);
    ReplaceLiteralPrefix(p, PlaceholderText(key), data);
  }

  /** Single-pass substitution: a leading placeholder is replaced by its resolved value and the scan resumes after it. */
  lemma ReplacePlaceholderHead(key: string, t: string, data: map<string, string>)
    requires |key| > 0 && '}' !in key
    ensures ReplaceTemplates(PlaceholderText(key) + t, data) == Resolve(key, data) + ReplaceTemplates(t, data)
  {
    var head := [Placeholder(key)];
    TokensPlaceholderHead(key, t);
    RenderAppend(head, Tokens(t), data);
    assert Render(head, data) == Resolve(key, data) by {
      assert Render(head, data) == RenderToken(head[0], data) + Render(head[1..], data);
      assert head[1..] == [];
    }
  }

  /** A hit: `Hi {{name}}` with `name` bound to `Sam` becomes `Hi Sam`. */
  lemma ReplaceHitExample(prefix: string, key: string, value: string)
    requires prefix == "Hi " && key == "name" && value == "Sam"
    ensures ReplaceTemplates(prefix + PlaceholderText(key), map[key := value]) == "Hi Sam"
  {
    assert forall i :: 0 <= i < |key| ==> key[i] != '}';
    assert forall i :: 0 <= i < |prefix| ==> prefix[i] != '{';
    ReplaceAfterPrefix(prefix, key, map[key := value]);
  }

  /** Lookup uses the key as captured: `{{ name }}` does not resolve against `name`. */
  lemma UntrimmedLookupExample(typed: string, bound: string)
    requires typed == " name " && bound == "name"
    ensures ReplaceTemplates(PlaceholderText(typed), map[bound := "Sam"]) == PlaceholderText(typed)
  {
    assert forall i :: 0 <= i < |typed| ==> typed[i] != '}';
    assert typed != bound by { assert |typed| != |bound|; }
    ReplaceSinglePlaceholder(typed, map[bound := "Sam"]);
  }

  /** Substitution is single-pass: a value that itself reads `{{b}}` is inserted as is. */
  lemma SinglePassExample(key: string, inner: string)
    requires key == "a" && inner == "b"
    ensures ReplaceTemplates(PlaceholderText(key), map[key := PlaceholderText(inner), inner := "X"]) == PlaceholderText(inner)
  {
    assert '}' !in key by {
      assert forall i :: 0 <= i < |key| ==> key[i] != '}';
    }
    ReplaceSinglePlaceholder(key, map[key := PlaceholderText(inner), inner := "X"]);
  }
}
