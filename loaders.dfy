/**
 * `parseYMLFiles` and `parseHTMLFiles` of main.ts: each allocates a `Map`,
 * walks the directory listing, sets the pairs of every selected file in
 * place, and ends by logging the map's entries. An exception inside the `try`
 * ends the walk and only an error is logged; that is `Failed` here.
 */
module Loaders {
  import opened OrderedMaps
  import opened InsertionMaps
  import opened Loading
  import opened LoadingProperties

  /** `for (const [key, value] of Object.entries(yamlData)) map.set(key, value)` */
  method SetEntries<V>(m: InsertionMap<V>, pairs: seq<(string, V)>)
    requires m.Valid()
    modifies m
    ensures m.Valid()
    ensures m.Model() == PutAll(old(m.Model()), pairs)
  {
    ghost var before := m.Model();
    var j := 0;
    while j < |pairs|
      invariant 0 <= j <= |pairs|
      invariant m.Valid()
      invariant m.Model() == PutAll(before, pairs[..j])
    {
      assert pairs[..j + 1] == pairs[..j] + [pairs[j]];
      PutAllSnoc(before, pairs[..j], pairs[j]);
      m.Set(pairs[j].0, pairs[j].1);
      j := j + 1;
    }
    assert pairs[..j] == pairs;
  }

  /**
   * `tdElements.forEach(...)`: a cell is set only when both its date and its
   * level are truthy, and its level is set as the string it is.
   */
  method SetCells(m: InsertionMap<string>, cells: seq<Cell>)
    requires m.Valid()
    modifies m
    ensures m.Valid()
    ensures m.Model() == PutAll(old(m.Model()), CellPairs(cells))
  {
    ghost var before := m.Model();
    var j := 0;
    while j < |cells|
      invariant 0 <= j <= |cells|
      invariant m.Valid()
      invariant m.Model() == PutAll(before, CellPairs(cells[..j]))
    {
      var date, level := cells[j].date, cells[j].level;
      CellPairsPrefix(cells, j);
      ghost var done := CellPairs(cells[..j]);
      if date.Some? && date.value != "" && level.Some? && level.value != "" {
        assert CellPairs(cells[..j + 1]) == done + [(date.value, level.value)];
        PutAllSnoc(before, done, (date.value, level.value));
        m.Set(date.value, level.value);
      } else {
        assert CellPairs(cells[..j + 1]) == done;
      }
      j := j + 1;
    }
    assert cells[..j] == cells;
  }

  /** Everything the YAML loader logs: the map its specification describes, entry by entry. */
  method ParseYmlFiles(entries: seq<DirEntry>, parse: YamlParse) returns (out: Outcome<int>)
    ensures out == Report(LoadYml(entries, parse))
  {
    var contributions := new InsertionMap<int>();
    var i := 0;
    while i < |entries|
      invariant 0 <= i <= |entries|
      invariant fresh(contributions) && contributions.Valid()
      invariant LoadYml(entries[..i], parse) == Some(contributions.Model())
    {
      var file := entries[i];
      YmlStep(entries, parse, i);
      if file.isFile && StartsWith(file.name, FilePrefix) && EndsWith(file.name, YmlSuffix) {
        if file.content.None? {
          YmlAbortAt(entries, parse, i);
          return Failed;
        }
        var yamlData := parse(file.content.value);
        if yamlData.None? {
          YmlAbortAt(entries, parse, i);
          return Failed;
        }
        SetEntries(contributions, yamlData.value);
      }
      i := i + 1;
    }
    assert entries[..i] == entries;
    var lines := contributions.Entries();
    out := Logged(lines);
  }

  /** Everything the HTML loader logs: the map its specification describes, entry by entry. */
  method ParseHtmlFiles(entries: seq<DirEntry>, parse: HtmlParse) returns (out: Outcome<string>)
    ensures out == Report(LoadHtml(entries, parse))
  {
    var contributions := new InsertionMap<string>();
    var i := 0;
    while i < |entries|
      invariant 0 <= i <= |entries|
      invariant fresh(contributions) && contributions.Valid()
      invariant LoadHtml(entries[..i], parse) == Some(contributions.Model())
    {
      var file := entries[i];
      HtmlStep(entries, parse, i);
      i := i + 1;
      if file.isFile && StartsWith(file.name, FilePrefix) && EndsWith(file.name, HtmlSuffix) {
        if file.content.None? {
          HtmlAbortAt(entries, parse, i - 1);
          return Failed;
        }
        var document := parse(file.content.value);
        if document.None? {
          continue;
        }
        SetCells(contributions, document.value);
      }
    }
    assert entries[..i] == entries;
    var lines := contributions.Entries();
    out := Logged(lines);
  }
}
