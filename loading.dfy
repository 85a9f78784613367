/**
 * What the two loaders of main.ts compute, as functions of an abstract
 * directory listing and of the parsers they call.
 *
 * A loader walks the listing once. Each entry contributes a `FileData`: no
 * pairs (an entry the name filter rejects, or an HTML document that does not
 * parse), the pairs it yields, or `Abort` (the read or the YAML parse
 * throws, which ends the whole loop inside the loader's `try`). `Accumulate`
 * folds those contributions into one map with `Map.set`.
 */
module Loading {
  import opened OrderedMaps

  datatype Option<T> = None | Some(value: T)

  /**
   * One entry of `Deno.readDir`: its name, whether it is a regular file, and
   * what `Deno.readTextFile` gives for it (`None`: the read throws).
   */
  datatype DirEntry = DirEntry(name: string, isFile: bool, content: Option<string>)

  /** One `td` element: its `data-date` and `data-level` attributes (`None`: absent, `getAttribute` gives null). */
  datatype Cell = Cell(date: Option<string>, level: Option<string>)

  /** The YAML parser followed by `Object.entries` (`None`: it throws). */
  type YamlParse = string -> Option<seq<(string, int)>>

  /** `DOMParser.parseFromString` followed by `querySelectorAll("td")` (`None`: the document is null). */
  type HtmlParse = string -> Option<seq<Cell>>

  /** What one directory entry contributes to a loader's map. */
  datatype FileData<V> = Abort | Data(pairs: seq<(string, V)>)

  /** What a loader leaves observable: the lines of its final log loop, or only an error message. */
  datatype Outcome<V> = Logged(lines: seq<(string, V)>) | Failed

  const FilePrefix: string := "contributions_"
  const YmlSuffix: string := ".yml"
  const HtmlSuffix: string := ".html"

  /** `String.prototype.startsWith` */
  predicate StartsWith(s: string, prefix: string) {
    |prefix| <= |s| && s[..|prefix|] == prefix
  }

  /** `String.prototype.endsWith` */
  predicate EndsWith(s: string, suffix: string) {
    |suffix| <= |s| && s[|s| - |suffix|..] == suffix
  }

  /** The name filter both loaders apply, with their own suffix. */
  predicate Selected(e: DirEntry, suffix: string) {
    e.isFile && StartsWith(e.name, FilePrefix) && EndsWith(e.name, suffix)
  }

  /** A selected YAML entry that cannot be loaded: the read or the parse throws. */
  predicate Unloadable(e: DirEntry, parse: YamlParse) {
    e.content.None? || parse(e.content.value).None?
  }

  /** JavaScript truthiness of both attributes: present and not the empty string. */
  predicate Recorded(c: Cell) {
    c.date.Some? && c.date.value != "" && c.level.Some? && c.level.value != ""
  }

  /** The `(date, level)` pairs the `forEach` callback sets, in document order; the level stays a string. */
  function CellPairs(cells: seq<Cell>): (r: seq<(string, string)>)
    ensures |r| <= |cells|
    ensures forall i :: 0 <= i < |r| ==> r[i].0 != "" && r[i].1 != ""
    decreases |cells|
  {
    if cells == [] then []
    else
      var c := cells[|cells| - 1];
      CellPairs(cells[..|cells| - 1]) + if Recorded(c) then [(c.date.value, c.level.value)] else []
  }

  /** One entry of the YAML loader's directory. */
  function YmlFile(e: DirEntry, parse: YamlParse): (r: FileData<int>)
    ensures r.Abort? <==> Selected(e, YmlSuffix) && Unloadable(e, parse)
    ensures !Selected(e, YmlSuffix) ==> r == Data([])
  {
    if !Selected(e, YmlSuffix) then Data([])
    else if Unloadable(e, parse) then Abort
    else Data(parse(e.content.value).value)
  }

  /** One entry of the HTML loader's directory: a document that does not parse is skipped. */
  function HtmlFile(e: DirEntry, parse: HtmlParse): (r: FileData<string>)
    ensures r.Abort? <==> Selected(e, HtmlSuffix) && e.content.None?
    ensures !Selected(e, HtmlSuffix) ==> r == Data([])
    ensures Selected(e, HtmlSuffix) && e.content.Some? && parse(e.content.value).None? ==> r == Data([])
  {
    if !Selected(e, HtmlSuffix) then Data([])
    else if e.content.None? then Abort
    else match parse(e.content.value)
      case None => Data([])
      case Some(cells) => Data(CellPairs(cells))
  }

  function YmlData(entries: seq<DirEntry>, parse: YamlParse): seq<FileData<int>>
  {
    seq(|entries|, j requires 0 <= j < |entries| => YmlFile(entries[j], parse))
  }

  function HtmlData(entries: seq<DirEntry>, parse: HtmlParse): seq<FileData<string>>
  {
    seq(|entries|, j requires 0 <= j < |entries| => HtmlFile(entries[j], parse))
  }

  /** One entry's contribution applied to the map built so far. */
  function Absorb<V>(m: OrderedMap<V>, f: FileData<V>): (r: Option<OrderedMap<V>>)
    requires m.Valid()
    ensures r.Some? ==> r.value.Valid()
  {
    match f
    case Abort => None
    case Data(pairs) => Some(PutAll(m, pairs))
  }

  /** The loaders' outer loop: contributions in listing order, stopping at the first `Abort`. */
  function Accumulate<V>(files: seq<FileData<V>>): (r: Option<OrderedMap<V>>)
    ensures r.Some? ==> r.value.Valid()
    decreases |files|
  {
    if files == [] then Some(Empty())
    else
      match Accumulate(files[..|files| - 1])
      case None => None
      case Some(m) => Absorb(m, files[|files| - 1])
  }

  /** `parseYMLFiles`' map, or `None` when its `try` catches an error. */
  function LoadYml(entries: seq<DirEntry>, parse: YamlParse): (r: Option<OrderedMap<int>>)
    ensures r.Some? ==> r.value.Valid()
  {
    Accumulate(YmlData(entries, parse))
  }

  /** `parseHTMLFiles`' map, or `None` when its `try` catches an error. */
  function LoadHtml(entries: seq<DirEntry>, parse: HtmlParse): (r: Option<OrderedMap<string>>)
    ensures r.Some? ==> r.value.Valid()
  {
    Accumulate(HtmlData(entries, parse))
  }

  /** The log a loader ends with: its map's entries in order, or nothing but the error. */
  function Report<V>(r: Option<OrderedMap<V>>): (out: Outcome<V>)
    requires r.Some? ==> r.value.Valid()
    ensures out.Failed? <==> r.None?
    ensures r.Some? ==> |out.lines| == |r.value.order| && forall i :: 0 <= i < |out.lines| ==> out.lines[i].0 == r.value.order[i]
    ensures r.Some? ==> forall i, j :: 0 <= i < j < |out.lines| ==> out.lines[i].0 != out.lines[j].0
    ensures r.Some? ==> forall i :: 0 <= i < |out.lines| ==> out.lines[i].0 in r.value.table && out.lines[i].1 == r.value.table[out.lines[i].0]
  {
    match r
    case None => Failed
    case Some(m) => Logged(EntrySeq(m))
  }

  /** The keys `f` sets. */
  predicate Supplies<V>(f: FileData<V>, k: string) {
    f.Data? && k in KeySeq(f.pairs)
  }

  /** All keys the contributions set, in the order they are set. */
  function AllKeys<V>(files: seq<FileData<V>>): seq<string>
    decreases |files|
  {
    if files == [] then []
    else
      var f := files[|files| - 1];
      AllKeys(files[..|files| - 1]) + if f.Data? then KeySeq(f.pairs) else []
  }
}
