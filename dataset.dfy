/**
 * `process_dataset` (activity/datasets/process_games_dataset.py): picks the
 * game-title column of a table of reference titles and cleans its values.
 * The table is abstract: named columns of cells.
 */
module Dataset {
  import opened Wrappers
  import opened Text

  /** The title columns, in priority order. */
  const GameNameColumns: seq<string> := ["name", "title", "game_title", "game_name", "product_name"]

  /** A table cell: missing (`None`/`NaN`), a string, or any other value. */
  datatype Cell = Missing | Str(text: string) | Other

  datatype Column = Column(header: string, cells: seq<Cell>)

  /** A table: its columns, each holding `rowCount` cells. */
  datatype Frame = Frame(columns: seq<Column>, rowCount: nat)

  /** Selecting a column name that two columns share yields a table, which has no `tolist`. */
  datatype DatasetError = AmbiguousColumn(name: string)

  /** pandas' `df.empty`: no column or no row. */
  predicate IsEmpty(f: Frame) {
    |f.columns| == 0 || f.rowCount == 0
  }

  /** The lower-cased headers, as `df.columns` holds them after line 34. */
  function Headers(f: Frame): (hs: seq<string>)
    ensures |hs| == |f.columns|
    ensures forall i :: 0 <= i < |hs| ==> hs[i] == Lower(f.columns[i].header)
  {
    seq(|f.columns|, i requires 0 <= i < |f.columns| => Lower(f.columns[i].header))
  }

  /** The first of `candidates` that occurs in `headers`. */
  function FirstPresent(candidates: seq<string>, headers: seq<string>): (r: Option<nat>)
    ensures r.Some? ==> r.value < |candidates| && candidates[r.value] in headers
    ensures r.Some? ==> forall j :: 0 <= j < r.value ==> candidates[j] !in headers
    ensures r.None? ==> forall j :: 0 <= j < |candidates| ==> candidates[j] !in headers
  {
    if candidates == [] then None
    else if candidates[0] in headers then Some(0)
    else match FirstPresent(candidates[1..], headers)
      case None => None
      case Some(k) => Some(k + 1)
  }

  /** The indices of the columns whose lower-cased header is `name`. */
  function ColumnsNamed(f: Frame, name: string): set<nat>
  {
    set i: nat | i < |f.columns| && Lower(f.columns[i].header) == name
  }

  /** The stripped strings of `cells`, missing and non-string cells dropped. */
  function StrippedStrings(cells: seq<Cell>): set<string>
  {
    set i | 0 <= i < |cells| && cells[i].Str? :: Strip(cells[i].text)
  }

  predicate Distinct(xs: seq<string>) {
    forall i, j :: 0 <= i < j < |xs| ==> xs[i] != xs[j]
  }

  /**
   * `list(set(name.strip() for name in values if isinstance(name, str)))`
   * after `dropna()`; the set's order is unspecified, so this keeps first occurrences.
   */
  function CleanNames(cells: seq<Cell>): (r: seq<string>)
    ensures Distinct(r)
    ensures forall s :: s in r <==> s in StrippedStrings(cells)
  {
    if cells == [] then []
    else
      var rest := CleanNames(cells[..|cells| - 1]);
      var last := cells[|cells| - 1];
      assert forall s :: s in StrippedStrings(cells) <==>
        s in StrippedStrings(cells[..|cells| - 1]) || (last.Str? && s == Strip(last.text)) by {
        var init := cells[..|cells| - 1];
        forall s | s in StrippedStrings(cells)
          ensures s in StrippedStrings(init) || (last.Str? && s == Strip(last.text)) {
          var i :| 0 <= i < |cells| && cells[i].Str? && s == Strip(cells[i].text);
          if i < |cells| - 1 {
            assert init[i] == cells[i];
          }
        }
        forall s | s in StrippedStrings(init) ensures s in StrippedStrings(cells) {
          var i :| 0 <= i < |init| && init[i].Str? && s == Strip(init[i].text);
          assert cells[i] == init[i];
        }
      }
      if last.Str? && Strip(last.text) !in rest then rest + [Strip(last.text)] else rest
  }

  /**
   * `process_dataset(df)`: `[]` for no table or an empty one and when no
   * title column exists; otherwise the cleaned values of the first title
   * column present, searched for with a `for`/`break` loop.
   */
  method ProcessDataset(df: Option<Frame>) returns (r: Result<seq<string>, DatasetError>)
    ensures (df.None? || IsEmpty(df.value)) ==> r == Success([])
    ensures df.Some? && !IsEmpty(df.value) ==>
      match FirstPresent(GameNameColumns, Headers(df.value))
      case None => r == Success([])
      case Some(k) =>
        var name := GameNameColumns[k];
        var named := ColumnsNamed(df.value, name);
        if |named| == 1 then
          && r.Success? && Distinct(r.value)
          && (exists c :: c in named &&
                forall s :: s in r.value <==> s in StrippedStrings(df.value.columns[c].cells))
        else r == Failure(AmbiguousColumn(name))
  {
    if df.None? || IsEmpty(df.value) {
      return Success([]);
    }
    var f := df.value;
    var headers := Headers(f);
    var chosen: Option<nat> := None;
    for k := 0 to |GameNameColumns|
      invariant chosen.None? ==> forall j :: 0 <= j < k ==> GameNameColumns[j] !in headers
      invariant chosen.Some? ==> chosen == FirstPresent(GameNameColumns, headers)
    {
      if GameNameColumns[k] in headers {
        chosen := Some(k);
        break;
      }
    }
    if chosen.None? {
      return Success([]);
    }
    var name := GameNameColumns[chosen.value];
    var named := ColumnsNamed(f, name);
    if |named| != 1 {
      return Failure(AmbiguousColumn(name));
    }
    var c :| c in named;
    r := Success(CleanNames(f.columns[c].cells));
  }
}
