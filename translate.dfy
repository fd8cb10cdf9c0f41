/** The browser's `getText`: look a key up in the current language's table,
    then in English, else use the key itself; then replace each `{param}`
    placeholder, in the order the parameters are given, at its first
    occurrence only. A missing entry and an empty string are both falsy. */
module Translate {
  import opened JsString

  /** One language's table: message key to text. */
  type Messages = map<string, string>

  /** The text a table gives a key, when it gives a truthy one. */
  predicate Has(table: Messages, key: string) {
    key in table && table[key] != []
  }

  /** `translations[lang][key] || translations['en'][key] || key`. None where
      the source throws a TypeError: the current language has no table, or
      the English table is needed and missing. */
  function Lookup(tables: map<string, Messages>, lang: string, key: string): (r: Option<string>)
    ensures r.None? <==> lang !in tables || (!Has(tables[lang], key) && "en" !in tables)
    ensures r.Some? && key != [] ==> r.value != []
  {
    if lang !in tables then None
    else if Has(tables[lang], key) then Some(tables[lang][key])
    else if "en" !in tables then None
    else if Has(tables["en"], key) then Some(tables["en"][key])
    else Some(key)
  }

  /** `text.replace(pat, value)` with a string pattern: the first occurrence
      only. The replacement is taken literally. */
  function ReplaceFirst(text: string, pat: string, value: string): (r: string)
    ensures !Contains(text, pat) ==> r == text
    ensures Contains(text, pat) ==>
      exists i: nat :: StartsWithAt(text, i, pat) && (forall j :: 0 <= j < i ==> !StartsWithAt(text, j, pat))
        && r == text[..i] + value + text[i + |pat|..]
  {
    match IndexOf(text, pat)
    case None => text
    case Some(i) => text[..i] + value + text[i + |pat|..]
  }

  /** The placeholder of a parameter name. */
  function Placeholder(name: string): string {
    "{" + name + "}"
  }

  /** The text after replacing the placeholders of `params`, in order. */
  function Substitute(text: string, params: seq<(string, string)>): (r: string)
    ensures params == [] ==> r == text
  {
    if params == [] then text
    else
      var (name, value) := params[|params| - 1];
      ReplaceFirst(Substitute(text, params[..|params| - 1]), Placeholder(name), value)
  }

  /** `getText(key, params)`. */
  method GetText(tables: map<string, Messages>, lang: string, key: string, params: seq<(string, string)>)
    returns (r: Option<string>)
    ensures Lookup(tables, lang, key).None? ==> r.None?
    ensures Lookup(tables, lang, key).Some? ==> r == Some(Substitute(Lookup(tables, lang, key).value, params))
  {
    var found := Lookup(tables, lang, key);
    if found.None? {
      return None;
    }
    var text := found.value;
    for i := 0 to |params|
      invariant text == Substitute(found.value, params[..i])
    {
      assert params[..i + 1][..i] == params[..i];
      var (param, value) := params[i];
      text := ReplaceFirst(text, Placeholder(param), value);
    }
    assert params[..|params|] == params;
    return Some(text);
  }

  // ---------------------------------------------------------------------------
  // properties

  /** The fallback chain: the current language when it has a truthy text,
      else English when it has one, else the key. */
  lemma FallbackChain(tables: map<string, Messages>, lang: string, key: string)
    requires lang in tables && "en" in tables
    ensures Has(tables[lang], key) ==> Lookup(tables, lang, key) == Some(tables[lang][key])
    ensures !Has(tables[lang], key) && Has(tables["en"], key) ==> Lookup(tables, lang, key) == Some(tables["en"][key])
    ensures !Has(tables[lang], key) && !Has(tables["en"], key) ==> Lookup(tables, lang, key) == Some(key)
  {
  }

  /** Only the first occurrence is replaced: a second placeholder that does
      not overlap the first survives the replacement. */
  lemma SecondOccurrenceKept(text: string, pat: string, value: string, i: nat, j: nat)
    requires StartsWithAt(text, i, pat) && StartsWithAt(text, j, pat) && i + |pat| <= j
    ensures Contains(ReplaceFirst(text, pat, value), pat)
  {
    var p := IndexOf(text, pat).value;
    ReplaceFirstAt(text, pat, value, p);
    var at := OccurrenceShifted(text, pat, value, p, j);
  }

  /** An occurrence after the replaced one moves by the change in length. */
  lemma OccurrenceShifted(text: string, pat: string, value: string, p: nat, j: nat) returns (at: nat)
    requires p + |pat| <= j && StartsWithAt(text, j, pat)
    ensures var r := text[..p] + value + text[p + |pat|..]; at <= |r| && StartsWithAt(r, at, pat)
  {
    var r := text[..p] + value + text[p + |pat|..];
    var tail := text[p + |pat|..];
    var k := j - (p + |pat|);
    at := p + |value| + k;
    forall t | 0 <= t < |pat| ensures r[at + t] == pat[t] {
      assert text[j..j + |pat|][t] == text[j + t];
      assert r[at + t] == tail[k + t] == text[j + t];
    }
    assert r[at..at + |pat|] == pat;
  }

  /** The text before the first placeholder is kept, the value takes the
      placeholder's place, and the rest follows unchanged. */
  lemma ReplaceFirstAt(text: string, pat: string, value: string, i: nat)
    requires StartsWithAt(text, i, pat) && forall j :: 0 <= j < i ==> !StartsWithAt(text, j, pat)
    ensures ReplaceFirst(text, pat, value) == text[..i] + value + text[i + |pat|..]
  {
    IndexOfIs(text, pat, i);
  }
}
