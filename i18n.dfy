/** The translation function of the interface: a key is looked up in the
    table of the current language, then in the English table, and falls back to
    the key itself; each `{name}` placeholder is then filled from the
    parameters, in the order the parameters are listed, one occurrence each,
    with the replacement patterns that a string replacement honours. */
module I18n {
  import opened Types

  datatype Language = Zh | En

  /** A translation table: key to text. A key absent from a table, or mapped to
      the empty text, counts as missing. */
  type Table = map<string, string>

  function TableFor(lang: Language, zh: Table, en: Table): Table {
    if lang == Zh then zh else en
  }

  /** The entry of `table` at `key` when it is present and non-empty. */
  predicate Has(table: Table, key: string) {
    key in table && table[key] != ""
  }

  /** The untranslated text for `key`: the current language's entry when it has
      one, the English entry when only English has one, and the key itself
      otherwise; it is empty only for the empty key. */
  function Lookup(lang: Language, zh: Table, en: Table, key: string): (r: string)
    ensures Has(TableFor(lang, zh, en), key) ==> r == TableFor(lang, zh, en)[key]
    ensures !Has(TableFor(lang, zh, en), key) && Has(en, key) ==> r == en[key]
    ensures !Has(TableFor(lang, zh, en), key) && !Has(en, key) ==> r == key
    ensures r == "" ==> key == ""
  {
    var local := TableFor(lang, zh, en);
    if Has(local, key) then local[key]
    else if Has(en, key) then en[key]
    else key
  }

  /** The placeholder `{name}`. */
  function Placeholder(name: string): (p: string)
    ensures |p| == |name| + 2 && p[0] == '{'
  {
    "{" + name + "}"
  }

  /** Whether `pat` occurs in `text` at index `i`. */
  predicate OccursAt(text: string, pat: string, i: int) {
    0 <= i && i + |pat| <= |text| && text[i..i + |pat|] == pat
  }

  /** The first index at or after `from` where `pat` occurs in `text`. */
  function FirstIndexFrom(text: string, pat: string, from: nat): (r: Option<nat>)
    decreases |text| - from
    ensures r.Some? ==> from <= r.value && OccursAt(text, pat, r.value)
    ensures forall i :: from <= i && (r.None? || i < r.value) ==> !OccursAt(text, pat, i)
  {
    if from + |pat| > |text| then None
    else if text[from..from + |pat|] == pat then Some(from)
    else FirstIndexFrom(text, pat, from + 1)
  }

  /** The replacement text with its `$` patterns substituted: `$$` is a dollar
      sign, `$&` the matched text, `` $` `` the text before the match, `$'` the
      text after it; any other `$` stands for itself. A replacement text without
      `$` is inserted as it is. */
  function Expand(repl: string, matched: string, before: string, after: string): (r: string)
    ensures (forall i :: 0 <= i < |repl| ==> repl[i] != '$') ==> r == repl
  {
    if repl == [] then []
    else if repl[0] == '$' && |repl| >= 2 && repl[1] == '$' then "$" + Expand(repl[2..], matched, before, after)
    else if repl[0] == '$' && |repl| >= 2 && repl[1] == '&' then matched + Expand(repl[2..], matched, before, after)
    else if repl[0] == '$' && |repl| >= 2 && repl[1] == '`' then before + Expand(repl[2..], matched, before, after)
    else if repl[0] == '$' && |repl| >= 2 && repl[1] == '\'' then after + Expand(repl[2..], matched, before, after)
    else
      assert repl == [repl[0]] + repl[1..];
      [repl[0]] + Expand(repl[1..], matched, before, after)
  }

  /** The text with the first occurrence of `pat` replaced by `repl`, or the
      text unchanged when `pat` does not occur: the text before the first
      occurrence and the text after it are kept, and a replacement without `$`
      takes the occurrence's place as it is. */
  function ReplaceFirst(text: string, pat: string, repl: string): (r: string)
    ensures FirstIndexFrom(text, pat, 0).None? ==> r == text
    ensures FirstIndexFrom(text, pat, 0).Some? ==>
              var i := FirstIndexFrom(text, pat, 0).value;
              && |r| >= i + (|text| - i - |pat|)
              && r[..i] == text[..i]
              && r[|r| - (|text| - i - |pat|)..] == text[i + |pat|..]
    ensures FirstIndexFrom(text, pat, 0).Some? && (forall j :: 0 <= j < |repl| ==> repl[j] != '$') ==>
              var i := FirstIndexFrom(text, pat, 0).value;
              r == text[..i] + repl + text[i + |pat|..]
  {
    match FirstIndexFrom(text, pat, 0)
    case None => text
    case Some(i) =>
      var out := text[..i] + Expand(repl, pat, text[..i], text[i + |pat|..]) + text[i + |pat|..];
      assert out[..i] == text[..i];
      assert out[|out| - (|text| - i - |pat|)..] == text[i + |pat|..];
      out
  }

  /** The text with each parameter substituted in turn, in the listed order. */
  function ApplyParams(text: string, params: seq<(string, string)>): string {
    if params == [] then text
    else
      var last := params[|params| - 1];
      ReplaceFirst(ApplyParams(text, params[..|params| - 1]), Placeholder(last.0), last.1)
  }

  /** One more parameter replaces its placeholder in the text produced by the earlier ones. */
  lemma ApplyParamsStep(text: string, params: seq<(string, string)>, i: nat)
    requires i < |params|
    ensures ApplyParams(text, params[..i + 1]) == ReplaceFirst(ApplyParams(text, params[..i]), Placeholder(params[i].0), params[i].1)
  {
    assert params[..i + 1][..i] == params[..i];
  }

  /** The translation of `key` in `lang`, with `params` filled in. Parameter
      values arrive already converted to text. */
  method T(lang: Language, zh: Table, en: Table, key: string, params: seq<(string, string)>)
    returns (text: string)
    ensures text == ApplyParams(Lookup(lang, zh, en, key), params)
  {
    var local := if lang == Zh then zh else en;
    if key in local && local[key] != "" {
      text := local[key];
    } else if key in en && en[key] != "" {
      text := en[key];
    } else {
      text := key;
    }
    var i := 0;
    while i < |params|
      invariant 0 <= i <= |params|
      invariant text == ApplyParams(Lookup(lang, zh, en, key), params[..i])
    {
      ApplyParamsStep(Lookup(lang, zh, en, key), params, i);
      text := ReplaceFirst(text, Placeholder(params[i].0), params[i].1);
      i := i + 1;
    }
    assert params[..|params|] == params;
  }

  /** In English the Chinese table is never consulted. */
  lemma EnglishIgnoresChinese(zh1: Table, zh2: Table, en: Table, key: string)
    ensures Lookup(En, zh1, en, key) == Lookup(En, zh2, en, key)
  {
  }

  /** A placeholder is found at the first `{` of the text when it sits there. */
  lemma FirstPlaceholder(a: string, name: string, b: string)
    requires forall i :: 0 <= i < |a| ==> a[i] != '{'
    ensures FirstIndexFrom(a + Placeholder(name) + b, Placeholder(name), 0) == Some(|a|)
  {
    var text := a + Placeholder(name) + b;
    var p := Placeholder(name);
    assert OccursAt(text, p, |a|) by {
      assert text[|a|..|a| + |p|] == p;
    }
    forall i | 0 <= i < |a|
      ensures !OccursAt(text, p, i)
    {
      if i + |p| <= |text| {
        assert text[i..i + |p|][0] == a[i];
      }
    }
  }

  /** Filling a placeholder whose value has no `$` and which is the first `{`
      of the text puts the value exactly in its place. */
  lemma FillPlaceholder(a: string, name: string, b: string, value: string)
    requires forall i :: 0 <= i < |a| ==> a[i] != '{'
    requires forall i :: 0 <= i < |value| ==> value[i] != '$'
    ensures ReplaceFirst(a + Placeholder(name) + b, Placeholder(name), value) == a + value + b
  {
    var text := a + Placeholder(name) + b;
    var p := Placeholder(name);
    FirstPlaceholder(a, name, b);
    assert text[..|a|] == a;
    assert text[|a| + |p|..] == b;
  }

  /** Without parameters, the translation is the looked-up text. */
  lemma NoParams(text: string)
    ensures ApplyParams(text, []) == text
  {
  }

  /** A parameter whose placeholder does not occur leaves the text unchanged. */
  lemma AbsentParam(text: string, params: seq<(string, string)>, name: string, value: string)
    requires FirstIndexFrom(ApplyParams(text, params), Placeholder(name), 0).None?
    ensures ApplyParams(text, params + [(name, value)]) == ApplyParams(text, params)
  {
    assert (params + [(name, value)])[..|params|] == params;
  }
}
