/**
  The template-tag panel of src/components/template-tags.tsx: collect the trimmed
  placeholder keys of the fields the paper size shows, drop duplicates, sort them,
  and turn the list into the header row of a CSV file.
 */
module Tags {
  import opened Results
  import opened Strings
  import opened Templates
  import opened Paper

  /** The order of `Array.prototype.sort` with no comparator: character by character, a proper prefix first. */
  predicate Less(a: string, b: string)
    decreases |a|
  {
    if |a| == 0 then |b| > 0
    else if |b| == 0 then false
    else if a[0] == b[0] then Less(a[1..], b[1..])
    else a[0] < b[0]
  }

  lemma {:induction false} LessIrreflexive(a: string)
    ensures !Less(a, a)
    decreases |a|
  {
    if |a| > 0 {
      LessIrreflexive(a[1..]);
    }
  }

  lemma {:induction false} LessAsymmetric(a: string, b: string)
    ensures !(Less(a, b) && Less(b, a))
    decreases |a|
  {
    if |a| > 0 && |b| > 0 && a[0] == b[0] {
      LessAsymmetric(a[1..], b[1..]);
    }
  }

  lemma {:induction false} LessTransitive(a: string, b: string, c: string)
    requires Less(a, b) && Less(b, c)
    ensures Less(a, c)
    decreases |a|
  {
    if |a| > 0 && a[0] == b[0] && b[0] == c[0] {
      LessTransitive(a[1..], b[1..], c[1..]);
    }
  }

  lemma {:induction false} LessTotal(a: string, b: string)
    ensures a == b || Less(a, b) || Less(b, a)
    decreases |a|
  {
    if |a| > 0 && |b| > 0 && a[0] == b[0] {
      LessTotal(a[1..], b[1..]);
      if a[1..] == b[1..] {
        assert a == [a[0]] + a[1..] && b == [b[0]] + b[1..];
      }
    }
  }

  /** Each element strictly precedes the next: sorted and free of duplicates. */
  predicate StrictlySorted(s: seq<string>) {
    forall i :: 0 <= i < |s| - 1 ==> Less(s[i], s[i + 1])
  }

  /** In a strictly sorted list the head precedes every later element. */
  lemma {:induction false} SortedHeadLeast(s: seq<string>)
    requires StrictlySorted(s) && |s| > 0
    ensures forall t :: t in s[1..] ==> Less(s[0], t)
    decreases |s|
  {
    if |s| > 1 {
      SortedHeadLeast(s[1..]);
      forall t | t in s[1..]
        ensures Less(s[0], t)
      {
        if t != s[1] {
          assert t in s[1..][1..];
          LessTransitive(s[0], s[1], t);
        }
      }
    }
  }

  /** A strictly sorted list is determined by its elements: there is one sorted enumeration of a set. */
  lemma {:induction false} SortedUnique(a: seq<string>, b: seq<string>)
    requires StrictlySorted(a) && StrictlySorted(b)
    requires forall t :: t in a <==> t in b
    ensures a == b
    decreases |a|
  {
    assert |a| > 0 ==> a[0] in b;
    assert |b| > 0 ==> b[0] in a;
    if |a| > 0 {
      SortedHeadLeast(a);
      SortedHeadLeast(b);
      if a[0] != b[0] {
        assert a[0] in a && b[0] in b;
        assert a[0] in b[1..];
        assert b[0] in a[1..];
        LessAsymmetric(a[0], b[0]);
        assert false;
      }
      LessIrreflexive(a[0]);
      forall t
        ensures t in a[1..] <==> t in b[1..]
      {
        assert t in a <==> t in a[1..] || t == a[0];
        assert t in b <==> t in b[1..] || t == b[0];
        assert a[0] !in a[1..] && b[0] !in b[1..];
      }
      SortedUnique(a[1..], b[1..]);
      assert a == [a[0]] + a[1..] && b == [b[0]] + b[1..];
    }
  }

  /** Adds `x` to a strictly sorted list, keeping it strictly sorted; `x` already present changes nothing. */
  function Insert(xs: seq<string>, x: string): (r: seq<string>)
    requires StrictlySorted(xs)
    ensures StrictlySorted(r)
    ensures forall t :: t in r <==> t in xs || t == x
    ensures |r| > 0 && (r[0] == x || (|xs| > 0 && r[0] == xs[0]))
    decreases |xs|
  {
    if |xs| == 0 then [x]
    else if x == xs[0] then xs
    else if Less(x, xs[0]) then [x] + xs
    else
      var rest := Insert(xs[1..], x);
      LessTotal(x, xs[0]);
      assert forall t :: t in xs <==> t == xs[0] || t in xs[1..];
      [xs[0]] + rest
  }

  /** `Array.from(new Set(xs)).sort()`: the distinct elements, in order. */
  function SortDistinct(xs: seq<string>): (r: seq<string>)
    ensures StrictlySorted(r)
    ensures forall t :: t in r <==> t in xs
    decreases |xs|
  {
    if |xs| == 0 then []
    else
      assert forall t :: t in xs <==> t == xs[0] || t in xs[1..];
      Insert(SortDistinct(xs[1..]), xs[0])
  }

  /** `match[1].trim()` for every match. */
  function TrimAll(keys: seq<string>): (r: seq<string>)
    ensures |r| == |keys|
  {
    seq(|keys|, i requires 0 <= i < |keys| => Trim(keys[i]))
  }

  lemma TrimAllPair(a: string, b: string)
    ensures TrimAll([a, b]) == [Trim(a), Trim(b)]
  {
    var r := TrimAll([a, b]);
    assert r[0] == Trim(a);
    assert r[1] == Trim(b);
  }

  /** The trimmed keys of one field's text, in order of appearance. */
  function FieldTags(text: string): seq<string> {
    TrimAll(Keys(text))
  }

  /** The trimmed keys of the listed fields, field after field. */
  function ActiveTags(letter: LetterData, fields: seq<Section>): (r: seq<string>)
    ensures forall t :: t in r <==> exists f :: f in fields && t in FieldTags(letter.Get(f))
  {
    if |fields| == 0 then []
    else
      assert forall f :: f in fields <==> f == fields[0] || f in fields[1..];
      FieldTags(letter.Get(fields[0])) + ActiveTags(letter, fields[1..])
  }

  /**
    The `templateTags` memo: sorted, free of duplicates, and holding exactly the trimmed
    keys found in the fields the paper size shows.
   */
  function TemplateTags(letter: LetterData, config: PaperTypeConfig): (r: seq<string>)
    ensures StrictlySorted(r)
    ensures forall t :: t in r <==> exists f :: f in config.fields && t in FieldTags(letter.Get(f))
  {
    SortDistinct(ActiveTags(letter, config.fields))
  }

  /** The tag list is the one sorted enumeration of the tags found: any other sorted, duplicate-free list of them equals it. */
  lemma TemplateTagsCanonical(letter: LetterData, config: PaperTypeConfig, other: seq<string>)
    requires StrictlySorted(other)
    requires forall t :: t in other <==> exists f :: f in config.fields && t in FieldTags(letter.Get(f))
    ensures TemplateTags(letter, config) == other
  {
    SortedUnique(TemplateTags(letter, config), other);
  }

  lemma {:induction false} ActiveTagsIgnoreOtherField(letter: LetterData, fields: seq<Section>, s: Section, v: string)
    requires s !in fields
    ensures ActiveTags(letter.With(s, v), fields) == ActiveTags(letter, fields)
    decreases |fields|
  {
    if |fields| > 0 {
      ActiveTagsIgnoreOtherField(letter, fields[1..], s, v);
    }
  }

  /** Text in a field the paper size does not show contributes no tag. */
  lemma InactiveFieldIgnored(letter: LetterData, config: PaperTypeConfig, s: Section, v: string)
    requires s !in config.fields
    ensures TemplateTags(letter.With(s, v), config) == TemplateTags(letter, config)
  {
    ActiveTagsIgnoreOtherField(letter, config.fields, s, v);
  }

  /** One space on either side of a word is trimmed away. */
  lemma TrimPadded(w: string)
    requires |w| > 0 && !IsWhitespace(w[0]) && !IsWhitespace(w[|w| - 1])
    ensures Trim([' '] + w + [' ']) == w
  {
    var s := [' '] + w + [' '];
    assert s[1..] == w + [' '];
    assert TrimStart(s) == TrimStart(w + [' ']);
    assert TrimStart(w + [' ']) == w + [' '];
    assert (w + [' '])[..|w|] == w;
    assert TrimEnd(w + [' ']) == TrimEnd(w);
  }

  lemma TrimSpacedName()
    ensures Trim(" name ") == "name"
  {
    assert " name " == [' '] + "name" + [' '];
    TrimPadded("name");
  }

  /** Two placeholders in a row capture their two keys, in order. */
  lemma TwoPlaceholderKeys(a: string, b: string)
    requires |a| > 0 && '}' !in a && |b| > 0 && '}' !in b
    ensures Keys(PlaceholderText(a) + PlaceholderText(b)) == [a, b]
  {
    TokensPlaceholderHead(b, "");
    assert PlaceholderText(b) + "" == PlaceholderText(b);
    assert Keys(PlaceholderText(b)) == [b] + Keys("");
    TokensPlaceholderHead(a, PlaceholderText(b));
  }

  lemma SpacedNameKeys()
    ensures Keys(PlaceholderText("name") + PlaceholderText(" name ")) == ["name", " name "]
  {
    TwoPlaceholderKeys("name", " name ");
  }

  lemma SpacedNameFieldTags()
    ensures FieldTags(PlaceholderText("name") + PlaceholderText(" name ")) == ["name", "name"]
  {
    SpacedNameKeys();
    TrimSpacedName();
    TrimUntouched("name");
    TrimAllPair("name", " name ");
  }

  /** Keys are trimmed before they are collected: `{{name}}` and `{{ name }}` give the single tag `name`. */
  lemma TrimMergesTags()
    ensures TemplateTags(LetterData("", "", PlaceholderText("name") + PlaceholderText(" name ")), Config(A5Portrait)) == ["name"]
  {
    var letter := LetterData("", "", PlaceholderText("name") + PlaceholderText(" name "));
    SpacedNameFieldTags();
    assert Config(A5Portrait).fields == [Body];
    assert forall t :: t in ["name"] <==> exists f :: f in [Body] && t in FieldTags(letter.Get(f));
    LessIrreflexive("name");
    TemplateTagsCanonical(letter, Config(A5Portrait), ["name"]);
  }

  /** Why the CSV download produced nothing. */
  datatype CsvError = NoTemplateTags

  /** `downloadCSVTemplate`'s content: an error for an empty tag list, else the tags joined by commas and a newline. */
  function CsvTemplate(tags: seq<string>): (r: Result<string, CsvError>)
    ensures r.Err? <==> |tags| == 0
    ensures r.Ok? ==> |r.value| > 0 && r.value[|r.value| - 1] == '\n'
    ensures r.Ok? ==> r.value[..|r.value| - 1] == Join(tags, ',')
  {
    if |tags| == 0 then Err(NoTemplateTags) else Ok(Join(tags, ',') + "\n")
  }

  /** When no tag holds a newline, the file is one header row: its only newline is the final one. */
  lemma CsvTemplateOneLine(tags: seq<string>)
    requires |tags| > 0
    requires forall i :: 0 <= i < |tags| ==> '\n' !in tags[i]
    ensures CsvTemplate(tags).Ok?
    ensures var c := CsvTemplate(tags).value; '\n' !in c[..|c| - 1] && c[|c| - 1] == '\n'
  {
    JoinAvoids(tags, ',', '\n');
  }

  /** A CSV header reader gets the tags back, column by column, when no tag holds a comma. */
  lemma CsvHeaderRoundTrip(tags: seq<string>)
    requires |tags| > 0
    requires forall i :: 0 <= i < |tags| ==> ',' !in tags[i]
    ensures CsvTemplate(tags).Ok?
    ensures var c := CsvTemplate(tags).value; Split(c[..|c| - 1], ',') == tags
  {
    var c := CsvTemplate(tags).value;
    assert c[..|c| - 1] == Join(tags, ',');
    SplitJoin(tags, ',');
  }
}
