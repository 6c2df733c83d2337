/** Translation tables: from texts by key to texts by language, and from there to import keys. */
module Translations {

  type Texts = map<string, string>

  /** Texts by key and language, or by language and key. */
  type Table = map<string, Texts>

  datatype ImportKey = ImportKey(name: string, tags: seq<string>, translations: Texts)

  predicate Has(t: Table, row: string, column: string) {
    row in t && column in t[row]
  }

  predicate NoEmptyRow(t: Table) {
    forall row :: row in t ==> t[row] != map[]
  }

  function Columns(t: Table): set<string> {
    set row, column | row in t && column in t[row] :: column
  }

  function Column(t: Table, column: string): Texts {
    map row | row in t && column in t[row] :: t[row][column]
  }

  /** Rows and columns exchanged; a row without entries disappears. */
  function Transposed(t: Table): Table {
    map column | column in Columns(t) :: Column(t, column)
  }

  /** The table without its empty rows. */
  function Kept(t: Table): Table {
    map row | row in t && t[row] != map[] :: t[row]
  }

  lemma TransposedEntry(t: Table, row: string, column: string)
    ensures Has(t, row, column) <==> Has(Transposed(t), column, row)
    ensures Has(t, row, column) ==> Transposed(t)[column][row] == t[row][column]
  {}

  lemma TransposedNoEmptyRow(t: Table)
    ensures NoEmptyRow(Transposed(t))
  {
    forall column | column in Transposed(t) ensures Transposed(t)[column] != map[] {
      var row :| row in t && column in t[row];
      TransposedEntry(t, row, column);
    }
  }

  ghost predicate SameEntry(t: Table, u: Table, row: string, column: string) {
    && (Has(t, row, column) <==> Has(u, row, column))
    && (Has(t, row, column) && Has(u, row, column) ==> t[row][column] == u[row][column])
  }

  ghost predicate SameEntries(t: Table, u: Table) {
    forall row, column :: SameEntry(t, u, row, column)
  }

  lemma RowOfOther(t: Table, u: Table, row: string)
    requires NoEmptyRow(t) && SameEntries(t, u) && row in t
    ensures row in u
  {
    assert t[row] != map[];
    var column :| column in t[row];
    assert SameEntry(t, u, row, column);
  }

  lemma SameRow(t: Table, u: Table, row: string)
    requires SameEntries(t, u) && row in t && row in u
    ensures t[row] == u[row]
  {
    forall column ensures column in t[row] <==> column in u[row] {
      assert SameEntry(t, u, row, column);
    }
    forall column | column in t[row] && column in u[row] ensures t[row][column] == u[row][column] {
      assert SameEntry(t, u, row, column);
    }
  }

  /** Tables without empty rows are told apart by their entries. */
  lemma SameTable(t: Table, u: Table)
    requires NoEmptyRow(t) && NoEmptyRow(u) && SameEntries(t, u)
    ensures t == u
  {
    forall row, column ensures SameEntry(u, t, row, column) {
      assert SameEntry(t, u, row, column);
    }
    forall row ensures row in t <==> row in u {
      if row in t { RowOfOther(t, u, row); }
      if row in u { RowOfOther(u, t, row); }
    }
    forall row | row in t ensures t[row] == u[row] {
      SameRow(t, u, row);
    }
  }

  lemma KeptEntry(t: Table, row: string, column: string)
    ensures Has(Kept(t), row, column) <==> Has(t, row, column)
    ensures Has(Kept(t), row, column) ==> Kept(t)[row][column] == t[row][column]
  {}

  lemma TwiceEntry(t: Table, row: string, column: string)
    ensures SameEntry(Transposed(Transposed(t)), Kept(t), row, column)
  {
    TransposedEntry(t, row, column);
    TransposedEntry(Transposed(t), column, row);
    KeptEntry(t, row, column);
  }

  /** Exchanging rows and columns twice gives back the table without its empty rows. */
  lemma TransposedTwice(t: Table)
    ensures Transposed(Transposed(t)) == Kept(t)
  {
    TransposedNoEmptyRow(Transposed(t));
    TwiceEntries(t);
    SameTable(Transposed(Transposed(t)), Kept(t));
  }

  lemma TwiceEntries(t: Table)
    ensures SameEntries(Transposed(Transposed(t)), Kept(t))
  {
    forall row, column ensures SameEntry(Transposed(Transposed(t)), Kept(t), row, column) {
      TwiceEntry(t, row, column);
    }
  }

  /** What has been carried over while some rows, and some columns of one row, are left. */
  ghost predicate Carried(t: Table, u: Table, todo: set<string>, row: string, left: set<string>) {
    && NoEmptyRow(u)
    && (forall r, c :: Has(u, c, r) <==> Has(t, r, c) && r !in todo && (r == row ==> c !in left))
    && (forall r, c :: Has(u, c, r) ==> u[c][r] == t[r][c])
  }

  function WithText(u: Table, column: string, row: string, text: string): Table {
    u[column := (if column in u then u[column] else map[])[row := text]]
  }

  lemma WithTextEntry(u: Table, column: string, row: string, text: string, c: string, r: string)
    ensures var u' := WithText(u, column, row, text);
      && (Has(u', c, r) <==> (c == column && r == row) || Has(u, c, r))
      && (Has(u', c, r) ==> u'[c][r] == if c == column && r == row then text else u[c][r])
  {}

  /** The table is made in two steps when the row is new. */
  lemma WithTextSteps(u: Table, column: string, row: string, text: string)
    ensures var v := if column in u then u else u[column := map[]];
      v[column := v[column][row := text]] == WithText(u, column, row, text)
  {}

  lemma WithTextNoEmptyRow(u: Table, column: string, row: string, text: string)
    requires NoEmptyRow(u)
    ensures NoEmptyRow(WithText(u, column, row, text))
  {
    assert row in WithText(u, column, row, text)[column];
  }

  /** One more entry is carried over. */
  lemma CarriedNext(t: Table, u: Table, todo: set<string>, row: string, left: set<string>, column: string)
    requires Carried(t, u, todo, row, left) && column in left && row !in todo && Has(t, row, column)
    ensures Carried(t, WithText(u, column, row, t[row][column]), todo, row, left - {column})
  {
    var u' := WithText(u, column, row, t[row][column]);
    WithTextNoEmptyRow(u, column, row, t[row][column]);
    forall r, c
      ensures Has(u', c, r) <==> Has(t, r, c) && r !in todo && (r == row ==> c !in left - {column})
      ensures Has(u', c, r) ==> u'[c][r] == t[r][c]
    {
      WithTextEntry(u, column, row, t[row][column], c, r);
    }
  }

  /** One row is through, or has not been begun. */
  lemma CarriedRow(t: Table, u: Table, todo: set<string>, row: string)
    requires row in t
    ensures row in todo && Carried(t, u, todo, "", {}) ==> Carried(t, u, todo - {row}, row, t[row].Keys)
    ensures Carried(t, u, todo, row, {}) ==> Carried(t, u, todo, "", {})
  {}

  lemma CarriedAll(t: Table, u: Table)
    requires Carried(t, u, {}, "", {})
    ensures u == Transposed(t)
  {
    TransposedNoEmptyRow(t);
    forall column, row ensures SameEntry(u, Transposed(t), column, row) {
      TransposedEntry(t, row, column);
    }
    SameTable(u, Transposed(t));
  }

  /** Collects the texts by language; keys and languages are visited in any order. */
  method ConvertKeysToDictionary(dict: Table) returns (langsKeys: Table)
    ensures langsKeys == Transposed(dict)
  {
    langsKeys := map[];
    var keys := dict.Keys;
    while keys != {}
      invariant keys <= dict.Keys
      invariant Carried(dict, langsKeys, keys, "", {})
      decreases keys
    {
      var key :| key in keys;
      langsKeys := ConvertKey(dict, key, keys, langsKeys);
      keys := keys - {key};
    }
    CarriedAll(dict, langsKeys);
  }

  /** The inner loop: the texts of one key. */
  method ConvertKey(dict: Table, key: string, ghost keys: set<string>, before: Table) returns (langsKeys: Table)
    requires key in keys && keys <= dict.Keys && Carried(dict, before, keys, "", {})
    ensures Carried(dict, langsKeys, keys - {key}, "", {})
  {
    langsKeys := before;
    CarriedRow(dict, langsKeys, keys, key);
    var langs := dict[key].Keys;
    while langs != {}
      invariant langs <= dict[key].Keys
      invariant Carried(dict, langsKeys, keys - {key}, key, langs)
      decreases langs
    {
      var lang :| lang in langs;
      CarriedNext(dict, langsKeys, keys - {key}, key, langs, lang);
      WithTextSteps(langsKeys, lang, key, dict[key][lang]);
      langs := langs - {lang};
      if lang !in langsKeys {
        langsKeys := langsKeys[lang := map[]];
      }
      langsKeys := langsKeys[lang := langsKeys[lang][key := dict[key][lang]]];
    }
    CarriedRow(dict, langsKeys, keys - {key}, key);
  }

  /** The import keys are one for each row, in any order. */
  ghost predicate ListsRows(res: seq<ImportKey>, t: Table, tags: seq<string>) {
    && (forall i, j :: 0 <= i < j < |res| ==> res[i].name != res[j].name)
    && (forall k :: k in res ==> k.name in t && k == ImportKey(k.name, tags, t[k.name]))
    && (forall row :: row in t ==> ImportKey(row, tags, t[row]) in res)
  }

  /** The texts of the import keys collected so far, which all carry their name and the tags. */
  function TextsOf(keysMap: map<string, ImportKey>): Table {
    map key | key in keysMap :: keysMap[key].translations
  }

  predicate Labelled(keysMap: map<string, ImportKey>, tags: seq<string>) {
    forall key :: key in keysMap ==> keysMap[key] == ImportKey(key, tags, keysMap[key].translations)
  }

  /** Collects the texts of each key over the languages. */
  method CollectKeys(dict: Table, tags: seq<string>) returns (keysMap: map<string, ImportKey>)
    ensures Labelled(keysMap, tags) && TextsOf(keysMap) == Transposed(dict)
  {
    keysMap := map[];
    var langs := dict.Keys;
    while langs != {}
      invariant langs <= dict.Keys
      invariant Labelled(keysMap, tags) && Carried(dict, TextsOf(keysMap), langs, "", {})
      decreases langs
    {
      var lang :| lang in langs;
      keysMap := CollectLanguage(dict, tags, lang, langs, keysMap);
      langs := langs - {lang};
    }
    CarriedAll(dict, TextsOf(keysMap));
  }

  /** The inner loop: the texts of one language. */
  method CollectLanguage(dict: Table, tags: seq<string>, lang: string, ghost langs: set<string>,
                         before: map<string, ImportKey>)
    returns (keysMap: map<string, ImportKey>)
    requires lang in langs && langs <= dict.Keys
    requires Labelled(before, tags) && Carried(dict, TextsOf(before), langs, "", {})
    ensures Labelled(keysMap, tags) && Carried(dict, TextsOf(keysMap), langs - {lang}, "", {})
  {
    keysMap := before;
    CarriedRow(dict, TextsOf(keysMap), langs, lang);
    var keys := dict[lang].Keys;
    while keys != {}
      invariant keys <= dict[lang].Keys
      invariant Labelled(keysMap, tags) && Carried(dict, TextsOf(keysMap), langs - {lang}, lang, keys)
      decreases keys
    {
      var key :| key in keys;
      CarriedNext(dict, TextsOf(keysMap), langs - {lang}, lang, keys, key);
      KeyCollected(keysMap, tags, key, lang, dict[lang][key]);
      keys := keys - {key};
      var importKey := if key in keysMap then keysMap[key] else ImportKey(key, tags, map[]);
      importKey := importKey.(translations := importKey.translations[lang := dict[lang][key]]);
      keysMap := keysMap[key := importKey];
    }
    CarriedRow(dict, TextsOf(keysMap), langs - {lang}, lang);
  }

  lemma KeyCollected(keysMap: map<string, ImportKey>, tags: seq<string>, key: string, lang: string, text: string)
    requires Labelled(keysMap, tags)
    ensures var k := if key in keysMap then keysMap[key] else ImportKey(key, tags, map[]);
      var after := keysMap[key := k.(translations := k.translations[lang := text])];
      Labelled(after, tags) && TextsOf(after) == WithText(TextsOf(keysMap), key, lang, text)
  {}

  method ConvertDictionaryToImportKeys(dict: Table, tags: seq<string>) returns (res: seq<ImportKey>)
    ensures ListsRows(res, Transposed(dict), tags)
  {
    var keysMap := CollectKeys(dict, tags);
    ghost var t := TextsOf(keysMap);
    res := [];
    var names := keysMap.Keys;
    while names != {}
      invariant names <= keysMap.Keys
      invariant forall i, j :: 0 <= i < j < |res| ==> res[i].name != res[j].name
      invariant forall k :: k in res ==> k.name in keysMap && k.name !in names && k == keysMap[k.name]
      invariant forall name :: name in keysMap && name !in names ==> keysMap[name] in res
      decreases names
    {
      var name :| name in names;
      names := names - {name};
      res := res + [keysMap[name]];
    }
    assert forall name :: name in t ==> keysMap[name] == ImportKey(name, tags, t[name]);
  }

  /** A table converted to a dictionary and on to import keys yields one import key for each key with
      at least one translation, with exactly its translations. */
  lemma ImportRoundTrip(t: Table, dict: Table, res: seq<ImportKey>, tags: seq<string>)
    requires dict == Transposed(t) && ListsRows(res, Transposed(dict), tags)
    ensures ListsRows(res, Kept(t), tags)
  {
    TransposedTwice(t);
  }
}
