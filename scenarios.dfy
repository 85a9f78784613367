/** A small concrete listing run through the YAML loader's specification. */
module LoaderScenarios {
  import opened OrderedMaps
  import opened Loading
  import opened LoadingProperties

  const First: string := "2024-01-01"
  const Second: string := "2024-01-02"

  /** A parser that knows two file texts, "a" and "b", and throws on anything else. */
  function Yaml(text: string): Option<seq<(string, int)>>
  {
    if text == "a" then Some([(First, 5), (Second, 1)])
    else if text == "b" then Some([(First, 7)])
    else None
  }

  function Listing2023(): seq<DirEntry>
  {
    [ DirEntry("contributions_2023.yml", true, Some("a")),
      DirEntry("contributions_2023.yaml", true, None),
      DirEntry("contributions_old.yml", false, None),
      DirEntry("contributions_2024.yml", true, Some("b")) ]
  }

  lemma YmlNamesSelected()
    ensures Selected(Listing2023()[0], YmlSuffix) && Selected(Listing2023()[3], YmlSuffix)
  {
    var e0, e3 := Listing2023()[0], Listing2023()[3];
    assert e0.name[..14] == FilePrefix && e0.name[|e0.name| - 4..] == YmlSuffix;
    assert e3.name[..14] == FilePrefix && e3.name[|e3.name| - 4..] == YmlSuffix;
  }

  lemma YamlSuffixRejected()
    ensures !Selected(Listing2023()[1], YmlSuffix)
  {
    var e1 := Listing2023()[1];
    assert e1.name[|e1.name| - 4..] == "yaml";
  }

  lemma ScenarioFiles()
    ensures YmlData(Listing2023(), Yaml) == [Data([(First, 5), (Second, 1)]), Data([]), Data([]), Data([(First, 7)])]
  {
    YmlNamesSelected();
    YamlSuffixRejected();
  }

  const AfterFirstFile: OrderedMap<int> := OrderedMap([First, Second], map[First := 5, Second := 1])
  const AfterSecondFile: OrderedMap<int> := OrderedMap([First, Second], map[First := 7, Second := 1])

  lemma DatesDiffer()
    ensures First != Second
  {
    assert First[9] != Second[9];
  }

  lemma FirstFileMap()
    ensures PutAll(Empty(), [(First, 5), (Second, 1)]) == AfterFirstFile
  {
    DatesDiffer();
    var e: OrderedMap<int> := Empty();
    PutAllSnoc(e, [], (First, 5));
    assert [] + [(First, 5)] == [(First, 5)];
    var half := Put(e, First, 5);
    assert half.order == [First] && half.table == map[First := 5];
    PutAllSnoc(e, [(First, 5)], (Second, 1));
    assert [(First, 5)] + [(Second, 1)] == [(First, 5), (Second, 1)];
    var full := Put(half, Second, 1);
    assert full.order == [First, Second];
    assert full.table == map[First := 5, Second := 1];
  }

  lemma SecondFileMap()
    ensures AfterFirstFile.Valid()
    ensures PutAll(AfterFirstFile, [(First, 7)]) == AfterSecondFile
  {
    DatesDiffer();
    assert [(First, 7)][..0] == [];
    assert AfterFirstFile.table[First := 7] == AfterSecondFile.table;
  }

  lemma FirstThreeEntries()
    ensures Accumulate([Data([(First, 5), (Second, 1)]), Data([]), Data([])]) == Some(AfterFirstFile)
  {
    var f0, d := Data([(First, 5), (Second, 1)]), Data([]);
    FirstFileMap();
    AccumulateSnoc([], f0);
    assert [] + [f0] == [f0];
    AccumulateSnoc([f0], d);
    assert [f0] + [d] == [f0, d];
    AccumulateSnoc([f0, d], d);
    assert [f0, d] + [d] == [f0, d, d];
  }

  /**
   * Two files with the same date: the later file's count replaces the
   * earlier one and the date keeps its first position; a `.yaml` file and a
   * directory are not read at all, so their unreadable contents do no harm.
   */
  lemma LaterYamlFileWins()
    ensures LoadYml(Listing2023(), Yaml) == Some(AfterSecondFile)
  {
    var f0, d, f3 := Data([(First, 5), (Second, 1)]), Data([]), Data([(First, 7)]);
    ScenarioFiles();
    FirstThreeEntries();
    SecondFileMap();
    AccumulateSnoc([f0, d, d], f3);
    assert [f0, d, d] + [f3] == [f0, d, d, f3];
  }

  /**
   * Of a row of cells only the one with a non-empty date and a non-empty
   * level is recorded, and its level stays the string "2".
   */
  lemma OnlyCompleteCellsRecorded()
    ensures CellPairs([Cell(Some(First), Some("2")), Cell(Some(""), Some("3")), Cell(Some(Second), None)])
      == [(First, "2")]
  {
    var c0, c1, c2 := Cell(Some(First), Some("2")), Cell(Some(""), Some("3")), Cell(Some(Second), None);
    assert [c0][..0] == [];
    assert CellPairs([c0]) == [(First, "2")];
    assert [c0, c1][..1] == [c0];
    assert CellPairs([c0, c1]) == CellPairs([c0]) + [];
    assert [c0, c1, c2][..2] == [c0, c1];
    assert CellPairs([c0, c1, c2]) == CellPairs([c0, c1]) + [];
  }
}
