/**
 * What the loaders promise: which entries matter, which keys end up in the
 * map, which value wins, in what order the keys are logged, and when the
 * whole load fails.
 */
module LoadingProperties {
  import opened OrderedMaps
  import opened Loading

  // ---- The fold over contributions, whatever the file format ----

  lemma AccumulateSnoc<V>(files: seq<FileData<V>>, f: FileData<V>)
    ensures Accumulate(files + [f]) == match Accumulate(files) case None => None case Some(m) => Absorb(m, f)
  {
    assert (files + [f])[..|files|] == files;
  }

  /** The load fails exactly when some entry aborts. */
  lemma {:induction false} AccumulateFails<V>(files: seq<FileData<V>>)
    ensures Accumulate(files).None? <==> exists j :: 0 <= j < |files| && files[j].Abort?
  {
    if files != [] {
      var n := |files| - 1;
      var init := files[..n];
      AccumulateFails(init);
      assert files == init + [files[n]];
      if Accumulate(init).None? {
        var j :| 0 <= j < n && init[j].Abort?;
        assert files[j].Abort?;
      } else if !files[n].Abort? {
        forall j | 0 <= j < |files|
          ensures !files[j].Abort?
        {
          if j < n {
            assert files[j] == init[j];
          }
        }
      }
    }
  }

  /** Once the load has failed, later entries cannot revive it. */
  lemma AccumulateStaysFailed<V>(files: seq<FileData<V>>, i: nat)
    requires i <= |files|
    requires Accumulate(files[..i]).None?
    ensures Accumulate(files).None?
  {
    AccumulateFails(files[..i]);
    AccumulateFails(files);
    var j :| 0 <= j < i && files[..i][j].Abort?;
    assert files[j].Abort?;
  }

  /** An entry that contributes no pairs can be taken out of the listing without changing the result. */
  lemma AccumulateEmptyLast<V>(a: seq<FileData<V>>)
    ensures Accumulate(a + [Data([])]) == Accumulate(a)
  {
    AccumulateSnoc(a, Data([]));
  }

  lemma {:induction false} AccumulateDropsEmpty<V>(a: seq<FileData<V>>, b: seq<FileData<V>>)
    ensures Accumulate(a + [Data([])] + b) == Accumulate(a + b)
    decreases |b|
  {
    var none: FileData<V> := Data([]);
    if b == [] {
      assert a + [none] + b == a + [none] && a + b == a;
      AccumulateEmptyLast(a);
    } else {
      var n := |b| - 1;
      var with, without := a + [none] + b[..n], a + b[..n];
      AccumulateDropsEmpty(a, b[..n]);
      assert a + [none] + b == with + [b[n]] && a + b == without + [b[n]];
      AccumulateSnoc(with, b[n]);
      AccumulateSnoc(without, b[n]);
    }
  }

  /** The same contribution twice in a row has the effect of once: overwrite, not accumulate. */
  lemma AccumulateRepeat<V>(a: seq<FileData<V>>, f: FileData<V>)
    ensures Accumulate(a + [f, f]) == Accumulate(a + [f])
  {
    var once := a + [f];
    assert a + [f, f] == once + [f];
    AccumulateSnoc(once, f);
    AccumulateSnoc(a, f);
    match Accumulate(a)
    case None =>
    case Some(m) =>
      if f.Data? {
        PutAllIdempotent(m, f.pairs);
      }
  }

  /** The map's keys are the keys the contributions set, nothing else. */
  lemma {:induction false} AccumulateKeys<V>(files: seq<FileData<V>>, m: OrderedMap<V>)
    requires Accumulate(files) == Some(m)
    ensures forall k :: k in m.table <==> k in AllKeys(files)
  {
    if files != [] {
      var n := |files| - 1;
      var prev := Accumulate(files[..n]).value;
      AccumulateKeys(files[..n], prev);
      PutAllKeys(prev, files[n].pairs);
    }
  }

  /** A key is set by the contributions exactly when some entry supplies it. */
  lemma {:induction false} AllKeysSupplied<V>(files: seq<FileData<V>>, k: string)
    ensures k in AllKeys(files) <==> exists j :: 0 <= j < |files| && Supplies(files[j], k)
  {
    if files != [] {
      var n := |files| - 1;
      var init := files[..n];
      AllKeysSupplied(init, k);
      if k in AllKeys(init) {
        var j :| 0 <= j < n && Supplies(init[j], k);
        assert Supplies(files[j], k);
      } else if Supplies(files[n], k) {
      } else {
        forall j | 0 <= j < |files|
          ensures !Supplies(files[j], k)
        {
          if j < n {
            assert files[j] == init[j];
          }
        }
      }
    }
  }

  /** A successful load is the last entry's pairs set over the load of the entries before it. */
  lemma AccumulateLast<V>(files: seq<FileData<V>>, m: OrderedMap<V>)
    requires files != [] && Accumulate(files) == Some(m)
    ensures Accumulate(files[..|files| - 1]).Some? && files[|files| - 1].Data?
    ensures m == PutAll(Accumulate(files[..|files| - 1]).value, files[|files| - 1].pairs)
  {
  }

  /**
   * Last writer wins: a key holds the value of its last pair in the last
   * entry that supplies it, exactly that value and never a combination.
   */
  lemma {:induction false} AccumulateLastWins<V>(files: seq<FileData<V>>, m: OrderedMap<V>, j: nat, i: nat)
    requires Accumulate(files) == Some(m)
    requires j < |files| && files[j].Data? && i < |files[j].pairs|
    requires forall i' :: i < i' < |files[j].pairs| ==> files[j].pairs[i'].0 != files[j].pairs[i].0
    requires forall j' :: j < j' < |files| ==> !Supplies(files[j'], files[j].pairs[i].0)
    ensures files[j].pairs[i].0 in m.table && m.table[files[j].pairs[i].0] == files[j].pairs[i].1
    decreases |files|
  {
    var n := |files| - 1;
    var init := files[..n];
    AccumulateLast(files, m);
    var prev := Accumulate(init).value;
    var k := files[j].pairs[i].0;
    if j == n {
      PutAllLastWins(prev, files[n].pairs, i);
    } else {
      assert init[j] == files[j];
      forall j' | j < j' < n
        ensures !Supplies(init[j'], k)
      {
        assert init[j'] == files[j'];
      }
      AccumulateLastWins(init, prev, j, i);
      PutAllUntouched(prev, files[n].pairs, k);
    }
  }

  /**
   * After the entries up to `j`, a key that no later entry supplies keeps
   * the value it had then: later files neither remove nor change it.
   */
  lemma {:induction false} AccumulateUnsupplied<V>(files: seq<FileData<V>>, m: OrderedMap<V>, j: nat, k: string)
    requires j <= |files| && Accumulate(files) == Some(m)
    requires forall j' :: j <= j' < |files| ==> !Supplies(files[j'], k)
    ensures Accumulate(files[..j]).Some?
    ensures k in Accumulate(files[..j]).value.table ==> k in m.table && m.table[k] == Accumulate(files[..j]).value.table[k]
    decreases |files|
  {
    if j == |files| {
      assert files[..j] == files;
    } else {
      var n := |files| - 1;
      var init := files[..n];
      AccumulateLast(files, m);
      var prev := Accumulate(init).value;
      assert init[..j] == files[..j];
      forall j' | j <= j' < n
        ensures !Supplies(init[j'], k)
      {
        assert init[j'] == files[j'];
      }
      AccumulateUnsupplied(init, prev, j, k);
      if k in prev.table {
        PutAllUntouched(prev, files[n].pairs, k);
      }
    }
  }

  /** Keys are logged in the order they were first set; a later overwrite does not move a key. */
  lemma {:induction false} AccumulateOrder<V>(files: seq<FileData<V>>, m: OrderedMap<V>)
    requires Accumulate(files) == Some(m)
    ensures m.order == Firsts({}, AllKeys(files))
  {
    if files == [] {
    } else {
      var n := |files| - 1;
      var init := files[..n];
      var prev := Accumulate(init).value;
      var pairs := files[n].pairs;
      AccumulateOrder(init, prev);
      AccumulateKeys(init, prev);
      PutAllOrder(prev, pairs);
      FirstsAppend({}, AllKeys(init), KeySeq(pairs));
      assert prev.table.Keys == {} + (set k | k in AllKeys(init));
    }
  }

  // ---- The YAML loader ----

  lemma YmlDataSplit(a: seq<DirEntry>, e: DirEntry, b: seq<DirEntry>, parse: YamlParse)
    ensures YmlData(a + [e] + b, parse) == YmlData(a, parse) + [YmlFile(e, parse)] + YmlData(b, parse)
    ensures YmlData(a + b, parse) == YmlData(a, parse) + YmlData(b, parse)
  {
  }

  /** One more entry of the YAML loop. */
  lemma YmlStep(entries: seq<DirEntry>, parse: YamlParse, i: nat)
    requires i < |entries|
    ensures LoadYml(entries[..i + 1], parse) ==
      match LoadYml(entries[..i], parse)
      case None => None
      case Some(m) => Absorb(m, YmlFile(entries[i], parse))
  {
    assert YmlData(entries[..i + 1], parse) == YmlData(entries[..i], parse) + [YmlFile(entries[i], parse)];
    AccumulateSnoc(YmlData(entries[..i], parse), YmlFile(entries[i], parse));
  }

  /** An entry that aborts fails the whole YAML load. */
  lemma YmlAbortAt(entries: seq<DirEntry>, parse: YamlParse, i: nat)
    requires i < |entries| && Selected(entries[i], YmlSuffix) && Unloadable(entries[i], parse)
    ensures LoadYml(entries, parse).None?
  {
    AccumulateFails(YmlData(entries, parse));
    assert YmlData(entries, parse)[i].Abort?;
  }

  /**
   * Only a regular file named `contributions_*.yml` contributes: any other
   * entry can be removed from the listing without changing the result.
   */
  lemma YmlOnlySelected(a: seq<DirEntry>, e: DirEntry, b: seq<DirEntry>, parse: YamlParse)
    requires !Selected(e, YmlSuffix)
    ensures LoadYml(a + [e] + b, parse) == LoadYml(a + b, parse)
  {
    YmlDataSplit(a, e, b, parse);
    AccumulateDropsEmpty(YmlData(a, parse), YmlData(b, parse));
  }

  /** The YAML load fails exactly when some selected file cannot be read or parsed. */
  lemma YmlFails(entries: seq<DirEntry>, parse: YamlParse)
    ensures LoadYml(entries, parse).None? <==>
      exists j :: 0 <= j < |entries| && Selected(entries[j], YmlSuffix) && Unloadable(entries[j], parse)
  {
    AccumulateFails(YmlData(entries, parse));
    if LoadYml(entries, parse).None? {
      var j :| 0 <= j < |entries| && YmlData(entries, parse)[j].Abort?;
      assert Selected(entries[j], YmlSuffix) && Unloadable(entries[j], parse);
    } else {
      forall j | 0 <= j < |entries| && Selected(entries[j], YmlSuffix)
        ensures !Unloadable(entries[j], parse)
      {
        assert !YmlData(entries, parse)[j].Abort?;
      }
    }
  }

  /**
   * After a successful YAML load, the map's keys are exactly the keys of the
   * selected files' parsed records: each of them, and no key from any other entry.
   */
  lemma YmlKeys(entries: seq<DirEntry>, parse: YamlParse, m: OrderedMap<int>)
    requires LoadYml(entries, parse) == Some(m)
    ensures forall k :: k in m.table <==>
      exists j :: 0 <= j < |entries| && Selected(entries[j], YmlSuffix) && Supplies(YmlFile(entries[j], parse), k)
  {
    var files := YmlData(entries, parse);
    AccumulateKeys(files, m);
    forall k
      ensures k in m.table <==>
        exists j :: 0 <= j < |entries| && Selected(entries[j], YmlSuffix) && Supplies(YmlFile(entries[j], parse), k)
    {
      AllKeysSupplied(files, k);
      if k in m.table {
        var j :| 0 <= j < |files| && Supplies(files[j], k);
        assert Selected(entries[j], YmlSuffix) && Supplies(YmlFile(entries[j], parse), k);
      }
      if exists j :: 0 <= j < |entries| && Selected(entries[j], YmlSuffix) && Supplies(YmlFile(entries[j], parse), k) {
        var j :| 0 <= j < |entries| && Selected(entries[j], YmlSuffix) && Supplies(YmlFile(entries[j], parse), k);
        assert Supplies(files[j], k);
      }
    }
  }

  /**
   * On a duplicate date the value of the last file that has it wins, the
   * value of its last occurrence in that file; values are never added up.
   */
  lemma YmlLastFileWins(entries: seq<DirEntry>, parse: YamlParse, m: OrderedMap<int>, j: nat, pairs: seq<(string, int)>, i: nat)
    requires LoadYml(entries, parse) == Some(m)
    requires j < |entries| && Selected(entries[j], YmlSuffix)
    requires entries[j].content.Some? && parse(entries[j].content.value) == Some(pairs)
    requires i < |pairs| && forall i' :: i < i' < |pairs| ==> pairs[i'].0 != pairs[i].0
    requires forall j' :: j < j' < |entries| ==> !Supplies(YmlFile(entries[j'], parse), pairs[i].0)
    ensures pairs[i].0 in m.table && m.table[pairs[i].0] == pairs[i].1
  {
    var files := YmlData(entries, parse);
    assert files[j] == Data(pairs);
    forall j' | j < j' < |files|
      ensures !Supplies(files[j'], pairs[i].0)
    {
      assert files[j'] == YmlFile(entries[j'], parse);
    }
    AccumulateLastWins(files, m, j, i);
  }

  /** Loading the same file twice in a row gives the same map as loading it once. */
  lemma YmlSameFileTwice(a: seq<DirEntry>, e: DirEntry, parse: YamlParse)
    ensures LoadYml(a + [e, e], parse) == LoadYml(a + [e], parse)
  {
    assert YmlData(a + [e, e], parse) == YmlData(a, parse) + [YmlFile(e, parse), YmlFile(e, parse)];
    assert YmlData(a + [e], parse) == YmlData(a, parse) + [YmlFile(e, parse)];
    AccumulateRepeat(YmlData(a, parse), YmlFile(e, parse));
  }

  // ---- The HTML loader ----

  lemma HtmlDataSplit(a: seq<DirEntry>, e: DirEntry, b: seq<DirEntry>, parse: HtmlParse)
    ensures HtmlData(a + [e] + b, parse) == HtmlData(a, parse) + [HtmlFile(e, parse)] + HtmlData(b, parse)
    ensures HtmlData(a + b, parse) == HtmlData(a, parse) + HtmlData(b, parse)
  {
  }

  /** One more entry of the HTML loop. */
  lemma HtmlStep(entries: seq<DirEntry>, parse: HtmlParse, i: nat)
    requires i < |entries|
    ensures LoadHtml(entries[..i + 1], parse) ==
      match LoadHtml(entries[..i], parse)
      case None => None
      case Some(m) => Absorb(m, HtmlFile(entries[i], parse))
  {
    assert HtmlData(entries[..i + 1], parse) == HtmlData(entries[..i], parse) + [HtmlFile(entries[i], parse)];
    AccumulateSnoc(HtmlData(entries[..i], parse), HtmlFile(entries[i], parse));
  }

  /** A selected entry that cannot be read fails the whole HTML load. */
  lemma HtmlAbortAt(entries: seq<DirEntry>, parse: HtmlParse, i: nat)
    requires i < |entries| && Selected(entries[i], HtmlSuffix) && entries[i].content.None?
    ensures LoadHtml(entries, parse).None?
  {
    AccumulateFails(HtmlData(entries, parse));
    assert HtmlData(entries, parse)[i].Abort?;
  }

  /** Only a regular file named `contributions_*.html` contributes. */
  lemma HtmlOnlySelected(a: seq<DirEntry>, e: DirEntry, b: seq<DirEntry>, parse: HtmlParse)
    requires !Selected(e, HtmlSuffix)
    ensures LoadHtml(a + [e] + b, parse) == LoadHtml(a + b, parse)
  {
    HtmlDataSplit(a, e, b, parse);
    AccumulateDropsEmpty(HtmlData(a, parse), HtmlData(b, parse));
  }

  /**
   * A selected file whose document does not parse adds nothing, and the
   * files after it are still processed: the result is that of the listing
   * without it.
   */
  lemma HtmlSkipsUnparsable(a: seq<DirEntry>, e: DirEntry, b: seq<DirEntry>, parse: HtmlParse)
    requires Selected(e, HtmlSuffix) && e.content.Some? && parse(e.content.value).None?
    ensures LoadHtml(a + [e] + b, parse) == LoadHtml(a + b, parse)
  {
    HtmlDataSplit(a, e, b, parse);
    AccumulateDropsEmpty(HtmlData(a, parse), HtmlData(b, parse));
  }

  /** The HTML load fails exactly when some selected file cannot be read; a parse failure never fails it. */
  lemma HtmlFails(entries: seq<DirEntry>, parse: HtmlParse)
    ensures LoadHtml(entries, parse).None? <==>
      exists j :: 0 <= j < |entries| && Selected(entries[j], HtmlSuffix) && entries[j].content.None?
  {
    AccumulateFails(HtmlData(entries, parse));
    if LoadHtml(entries, parse).None? {
      var j :| 0 <= j < |entries| && HtmlData(entries, parse)[j].Abort?;
      assert Selected(entries[j], HtmlSuffix) && entries[j].content.None?;
    } else {
      forall j | 0 <= j < |entries| && Selected(entries[j], HtmlSuffix)
        ensures entries[j].content.Some?
      {
        assert !HtmlData(entries, parse)[j].Abort?;
      }
    }
  }

  /** A cell without a non-empty date or a non-empty level is skipped and changes nothing. */
  lemma {:induction false} CellPairsSkip(a: seq<Cell>, c: Cell, b: seq<Cell>)
    requires !Recorded(c)
    ensures CellPairs(a + [c] + b) == CellPairs(a + b)
    decreases |b|
  {
    if b == [] {
      assert (a + [c] + b)[..|a|] == a;
      assert a + b == a;
    } else {
      var n := |b| - 1;
      CellPairsSkip(a, c, b[..n]);
      assert (a + [c] + b)[..|a| + 1 + n] == a + [c] + b[..n];
      assert (a + b)[..|a| + n] == a + b[..n];
    }
  }

  lemma CellPairsPrefix(cells: seq<Cell>, j: nat)
    requires j < |cells|
    ensures CellPairs(cells[..j + 1]) ==
      CellPairs(cells[..j]) + if Recorded(cells[j]) then [(cells[j].date.value, cells[j].level.value)] else []
  {
    assert cells[..j + 1][..j] == cells[..j];
  }

  lemma PutAllSnoc<V>(m: OrderedMap<V>, pairs: seq<(string, V)>, p: (string, V))
    requires m.Valid()
    ensures PutAll(m, pairs + [p]) == Put(PutAll(m, pairs), p.0, p.1)
  {
    assert (pairs + [p])[..|pairs|] == pairs;
  }

  /**
   * The level stored for a date is the `data-level` string of the last
   * recorded cell with that date, exactly as written: no number is parsed.
   */
  lemma {:induction false} HtmlLevelVerbatim(m: OrderedMap<string>, cells: seq<Cell>, i: nat)
    requires m.Valid()
    requires i < |cells| && Recorded(cells[i])
    requires forall i' :: i < i' < |cells| && Recorded(cells[i']) ==> cells[i'].date != cells[i].date
    ensures cells[i].date.value in PutAll(m, CellPairs(cells)).table
    ensures PutAll(m, CellPairs(cells)).table[cells[i].date.value] == cells[i].level.value
    decreases |cells|
  {
    var n := |cells| - 1;
    var init := cells[..n];
    var c := cells[n];
    var before := PutAll(m, CellPairs(init));
    if i == n {
      PutAllSnoc(m, CellPairs(init), (c.date.value, c.level.value));
    } else {
      assert init[i] == cells[i];
      forall i' | i < i' < n && Recorded(init[i'])
        ensures init[i'].date != init[i].date
      {
        assert init[i'] == cells[i'];
      }
      HtmlLevelVerbatim(m, init, i);
      if Recorded(c) {
        PutAllSnoc(m, CellPairs(init), (c.date.value, c.level.value));
        assert c.date.value != cells[i].date.value;
      } else {
        assert CellPairs(cells) == CellPairs(init);
      }
    }
  }

  /**
   * After a successful HTML load, the map's keys are exactly the dates the
   * selected files record: each of them, and no date from any other entry.
   */
  lemma HtmlKeys(entries: seq<DirEntry>, parse: HtmlParse, m: OrderedMap<string>)
    requires LoadHtml(entries, parse) == Some(m)
    ensures forall k :: k in m.table <==>
      exists j :: 0 <= j < |entries| && Selected(entries[j], HtmlSuffix) && Supplies(HtmlFile(entries[j], parse), k)
  {
    var files := HtmlData(entries, parse);
    AccumulateKeys(files, m);
    forall k
      ensures k in m.table <==>
        exists j :: 0 <= j < |entries| && Selected(entries[j], HtmlSuffix) && Supplies(HtmlFile(entries[j], parse), k)
    {
      AllKeysSupplied(files, k);
      if k in m.table {
        var j :| 0 <= j < |files| && Supplies(files[j], k);
        assert Selected(entries[j], HtmlSuffix) && Supplies(HtmlFile(entries[j], parse), k);
      }
      if exists j :: 0 <= j < |entries| && Selected(entries[j], HtmlSuffix) && Supplies(HtmlFile(entries[j], parse), k) {
        var j :| 0 <= j < |entries| && Selected(entries[j], HtmlSuffix) && Supplies(HtmlFile(entries[j], parse), k);
        assert Supplies(files[j], k);
      }
    }
  }

  /**
   * Across files, the level stored for a date is the `data-level` string of
   * the last recorded cell with that date in the last file that records it.
   */
  lemma HtmlLastFileWins(entries: seq<DirEntry>, parse: HtmlParse, m: OrderedMap<string>, j: nat, cells: seq<Cell>, i: nat)
    requires LoadHtml(entries, parse) == Some(m)
    requires j < |entries| && Selected(entries[j], HtmlSuffix)
    requires entries[j].content.Some? && parse(entries[j].content.value) == Some(cells)
    requires i < |cells| && Recorded(cells[i])
    requires forall i' :: i < i' < |cells| && Recorded(cells[i']) ==> cells[i'].date != cells[i].date
    requires forall j' :: j < j' < |entries| ==> !Supplies(HtmlFile(entries[j'], parse), cells[i].date.value)
    ensures cells[i].date.value in m.table && m.table[cells[i].date.value] == cells[i].level.value
  {
    var files := HtmlData(entries, parse);
    var k := cells[i].date.value;
    assert files[j] == Data(CellPairs(cells));
    forall j' | j + 1 <= j' < |files|
      ensures !Supplies(files[j'], k)
    {
      assert files[j'] == HtmlFile(entries[j'], parse);
    }
    AccumulateUnsupplied(files, m, j + 1, k);
    var upto := files[..j + 1];
    var after := Accumulate(upto).value;
    AccumulateLast(upto, after);
    assert upto[..j] == files[..j];
    var before := Accumulate(files[..j]).value;
    HtmlLevelVerbatim(before, cells, i);
  }
}
