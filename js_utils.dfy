/** The name-to-code helpers of the JavaScript API: the language code of a
    language name, and the series name whose model token occurs in a printer's
    advertised name. The tables `PRINTER_LANGUAGE` and `PRINTER_SERIES` map
    names to vendor constants the model does not know, so they are parameters:
    a map for the language codes and, for the series, the key list in its
    iteration order. */
module JsUtils {
  import opened Base

  /** The language every unknown language name falls back to. */
  const DefaultLanguage: string := "LANG_EN"

  /** The series every unrecognised printer name falls back to. */
  const DefaultSeries: string := "SERIES_TM_T20"

  /** `getPrinterLanguage`: the code of `language` when the table has one,
      otherwise the code of `LANG_EN` (absent only if the table lacks it). */
  function PrinterLanguageCode(languages: map<string, int>, language: string): (code: Option<int>)
    ensures language in languages ==> code == Some(languages[language])
    ensures language !in languages && DefaultLanguage in languages ==> code == Some(languages[DefaultLanguage])
    ensures code.None? <==> language !in languages && DefaultLanguage !in languages
    ensures code.Some? ==> code.value in languages.Values
  {
    if language in languages then Some(languages[language])
    else if DefaultLanguage in languages then Some(languages[DefaultLanguage])
    else None
  }

  /** A table that has a code for `LANG_EN` gives a code for every name, and
      every name outside the table gets exactly the `LANG_EN` code. */
  lemma LanguageFallback(languages: map<string, int>, language: string)
    requires DefaultLanguage in languages
    ensures PrinterLanguageCode(languages, language).Some?
    ensures language !in languages ==>
      PrinterLanguageCode(languages, language) == PrinterLanguageCode(languages, DefaultLanguage)
  {
  }

  predicate IsUnderscore(c: char) { c == '_' }

  /** `const [, , model] = series.split("_")` followed by
      `model?.toLowerCase?.()`: the third token, lower-cased. A key with fewer
      than three tokens has no model, and `includes(undefined)` looks for the
      text "undefined". */
  function ModelToken(key: string): (token: string)
    ensures forall j :: 0 <= j < |token| ==> token[j] != '_' && !IsUpper(token[j])
    ensures CountWhere(key, IsUnderscore) >= 2 ==> token == Lower(SplitWhere(key, IsUnderscore)[2])
    ensures CountWhere(key, IsUnderscore) < 2 ==> token == "undefined"
  {
    var pieces := SplitWhere(key, IsUnderscore);
    if |pieces| >= 3 then Lower(pieces[2]) else "undefined"
  }

  /** The printer name `name` is taken for the series `key`. */
  predicate SeriesMatches(name: string, key: string) {
    Contains(Lower(name), ModelToken(key))
  }

  /** `keys.find(matches)`, as the index of the key found. */
  function FirstMatch(keys: seq<string>, matches: string -> bool): (r: Option<nat>)
    ensures r.Some? ==> r.value < |keys| && matches(keys[r.value])
    ensures r.Some? ==> forall j :: 0 <= j < r.value ==> !matches(keys[j])
    ensures r.None? ==> forall j :: 0 <= j < |keys| ==> !matches(keys[j])
  {
    if keys == [] then None
    else if matches(keys[0]) then Some(0)
    else
      match FirstMatch(keys[1..], matches)
      case Some(j) => Some(j + 1)
      case None => None
  }

  /** The `find` of `getPrinterSeriesByName`: the first key whose model token
      occurs in the lower-cased name. */
  function FindSeries(keys: seq<string>, name: string): (r: Option<nat>)
    ensures r.Some? ==> r.value < |keys| && SeriesMatches(name, keys[r.value])
    ensures r.Some? ==> forall j :: 0 <= j < r.value ==> !SeriesMatches(name, keys[j])
    ensures r.None? ==> forall j :: 0 <= j < |keys| ==> !SeriesMatches(name, keys[j])
  {
    FirstMatch(keys, key => SeriesMatches(name, key))
  }

  /** `getPrinterSeriesByName`: the first key, in iteration order, whose model
      token occurs in the lower-cased name; `SERIES_TM_T20` when none does. */
  function SeriesByName(keys: seq<string>, name: string): (series: string)
    ensures series in keys || series == DefaultSeries
    ensures (exists i :: 0 <= i < |keys| && keys[i] == series && SeriesMatches(name, keys[i])
               && forall j :: 0 <= j < i ==> !SeriesMatches(name, keys[j]))
         || (series == DefaultSeries && forall j :: 0 <= j < |keys| ==> !SeriesMatches(name, keys[j]))
  {
    match FindSeries(keys, name)
    case Some(i) => keys[i]
    case None => DefaultSeries
  }

  /** The returned key's lower-cased model token is a substring of the
      lower-cased name, at some position. */
  lemma SeriesByNameTokenOccurs(keys: seq<string>, name: string)
    requires FindSeries(keys, name).Some?
    ensures exists i :: OccursAt(Lower(name), ModelToken(SeriesByName(keys, name)), i)
  {
    ContainsHasOccurrence(Lower(name), ModelToken(SeriesByName(keys, name)));
  }

  /** Names that differ only in the case of their letters select the same series. */
  lemma {:induction false} SeriesByNameIgnoresCase(keys: seq<string>, a: string, b: string)
    requires |a| == |b|
    requires forall i :: 0 <= i < |a| ==> LowerChar(a[i]) == LowerChar(b[i])
    ensures SeriesByName(keys, a) == SeriesByName(keys, b)
  {
    assert Lower(a) == Lower(b);
    assert forall k :: SeriesMatches(a, k) == SeriesMatches(b, k);
    if keys != [] {
      SeriesByNameIgnoresCase(keys[1..], a, b);
    }
  }

  /** A name is matched as its own lower-case form. */
  lemma SeriesByNameOfLowerCase(keys: seq<string>, name: string)
    ensures SeriesByName(keys, Lower(name)) == SeriesByName(keys, name)
  {
    LowerIdempotent(name);
    SeriesByNameIgnoresCase(keys, Lower(name), name);
  }

  /** A key whose model token contains the token of an earlier key is never
      chosen: every name it matches is already matched by the earlier key. */
  lemma ShadowedKeyNeverChosen(keys: seq<string>, name: string, i: nat, j: nat)
    requires i < j < |keys|
    requires Contains(ModelToken(keys[j]), ModelToken(keys[i]))
    ensures FindSeries(keys, name) != Some(j)
  {
    if FindSeries(keys, name) == Some(j) {
      ContainsTransitive(Lower(name), ModelToken(keys[j]), ModelToken(keys[i]));
    }
  }

  /** A key with at most one `_` has no third piece: its token is the text
      "undefined", so only a name containing that text matches it. */
  lemma ShortKeyMatchesUndefined(key: string, name: string)
    requires CountWhere(key, IsUnderscore) < 2
    ensures SeriesMatches(name, key) <==> Contains(Lower(name), "undefined")
  {
  }

  /** The model token of a key `a_b_c` is `c`, lower-cased. */
  lemma ModelTokenOfThreePieces(a: string, b: string, c: string)
    requires forall i :: 0 <= i < |a| ==> a[i] != '_'
    requires forall i :: 0 <= i < |b| ==> b[i] != '_'
    requires forall i :: 0 <= i < |c| ==> c[i] != '_'
    ensures ModelToken(a + "_" + b + "_" + c) == Lower(c)
  {
    SplitWithoutSeparator(c, IsUnderscore);
    SplitAtSeparator(b, '_', c, IsUnderscore);
    assert b + "_" + c == b + ['_'] + c;
    SplitAtSeparator(a, '_', b + "_" + c, IsUnderscore);
    assert a + "_" + b + "_" + c == a + ['_'] + (b + "_" + c);
  }

  lemma TokenOfM30()
    ensures ModelToken("SERIES_TM_M30") == "m30"
  {
    ModelTokenOfThreePieces("SERIES", "TM", "M30");
    assert "SERIES" + "_" + "TM" + "_" + "M30" == "SERIES_TM_M30";
    assert Lower("M30") == "m30";
  }

  lemma M30OccursInName()
    ensures Contains("tm-m30iii", "m30")
  {
    assert OccursAt("tm-m30iii", "m30", 3);
    OccurrenceContained("tm-m30iii", "m30", 3);
  }

  lemma LowerOfM30III()
    ensures Lower("TM-m30III") == "tm-m30iii"
  {
  }

  lemma NameOfM30IIIMatchesM30()
    ensures SeriesMatches("TM-m30III", "SERIES_TM_M30")
  {
    TokenOfM30();
    LowerOfM30III();
    M30OccursInName();
  }

  /** With `SERIES_TM_M30` ahead of `SERIES_TM_M30III` in key order, as the
      series names are declared, a printer advertised as "TM-m30III" is set up
      as `SERIES_TM_M30`. */
  lemma M30IIIResolvesToM30()
    ensures SeriesByName(["SERIES_TM_M30", "SERIES_TM_M30III"], "TM-m30III") == "SERIES_TM_M30"
  {
    NameOfM30IIIMatchesM30();
  }
}
