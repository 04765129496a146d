/**
 * The two consumers of a list of screened tickers: the numeric matrix built
 * for learning (`MachineLearning.convert_attributes_to_array`) and the
 * collection of one attribute's figures for a distribution plot
 * (the data loop of `CompareFinViz.visualise`).
 */
module Comparison {
  import opened Wrappers
  import opened Errors
  import opened Seqs
  import opened Dicts
  import opened Coercion
  import opened Ticker

  /*
   * Matrix assembly. `np.empty((n, m))` with `m` the length of the first
   * object's value list, then `x[i, :] = np.asarray(values_i)` for every
   * object: numpy copies a list of length `m` and broadcasts a list of length
   * 1 over the whole row; any other length raises ValueError.
   */

  /** `values` can be assigned to a matrix row of width `m`. */
  predicate Fits(values: seq<real>, m: nat) {
    |values| == m || |values| == 1
  }

  /** The test a list fails when it cannot be assigned to a row of width `m`. */
  function Misfit(m: nat): seq<real> -> bool {
    v => !Fits(v, m)
  }

  /** The row that `x[i, :] = np.asarray(values)` leaves in a matrix of width `m`. */
  function FillRow(values: seq<real>, m: nat): (row: seq<real>)
    requires Fits(values, m)
    ensures |row| == m
  {
    if |values| == m then values else seq(m, _ => values[0])
  }

  /** The rows filled from `lists`, each of width `m`. */
  function Filled(lists: seq<seq<real>>, m: nat): (rows: seq<seq<real>>)
    requires forall i :: 0 <= i < |lists| ==> Fits(lists[i], m)
    ensures |rows| == |lists|
  {
    seq(|lists|, i requires 0 <= i < |lists| => FillRow(lists[i], m))
  }

  /** What stops the assembly: no object at all, or the first list that does not fit the first one's width. */
  function MatrixError(lists: seq<seq<real>>): Option<Error> {
    if lists == [] then Some(NoObjects)
    else
      var m := |lists[0]|;
      var f := FirstWhere(lists, Misfit(m));
      if f < |lists| then Some(ShapeMismatch(f)) else None
  }

  /** `convert_attributes_to_array` as a value: the matrix, row by row, or the error it raises. */
  function Matrix(lists: seq<seq<real>>): Result<seq<seq<real>>, Error> {
    match MatrixError(lists)
    case Some(e) => Err(e)
    case None => Ok(Filled(lists, |lists[0]|))
  }

  /**
   * A successful assembly has one row per object, each as wide as the first
   * object's list; a row whose list has that width is the list itself, and a
   * row built from a single number repeats it.
   */
  lemma {:induction false} MatrixShape(lists: seq<seq<real>>)
    requires Matrix(lists).Ok?
    ensures var rows := Matrix(lists).value;
      && |rows| == |lists| > 0
      && (forall i :: 0 <= i < |rows| ==> |rows[i]| == |lists[0]|)
      && (forall i :: 0 <= i < |rows| && |lists[i]| == |lists[0]| ==> rows[i] == lists[i])
      && (forall i, j :: 0 <= i < |rows| && |lists[i]| == 1 && 0 <= j < |lists[0]| ==> rows[i][j] == lists[i][0])
  {
  }

  /** The matrix is exactly the objects' lists, row for row, iff there is an object and all lists have the first one's length. */
  lemma {:induction false} MatrixIsLists(lists: seq<seq<real>>)
    ensures Matrix(lists) == Ok(lists) <==> lists != [] && forall i :: 0 <= i < |lists| ==> |lists[i]| == |lists[0]|
  {
    if lists != [] && forall i :: 0 <= i < |lists| ==> |lists[i]| == |lists[0]| {
      var m := |lists[0]|;
      assert FirstWhere(lists, Misfit(m)) == |lists|;
      assert Filled(lists, m) == lists;
    }
    if Matrix(lists) == Ok(lists) {
      var rows := Matrix(lists).value;
      forall i | 0 <= i < |lists| ensures |lists[i]| == |lists[0]| {
        assert |rows[i]| == |lists[0]|;
      }
    }
  }

  /** An empty object list fails at `fin_viz_objects[0]`, and only an empty one does. */
  lemma {:induction false} MatrixNoObjects(lists: seq<seq<real>>)
    ensures Matrix(lists) == Err(NoObjects) <==> lists == []
  {
  }

  /**
   * The assembly fails at object `i` exactly when its list neither has the
   * first object's length nor a single element, and every earlier list fits.
   */
  lemma {:induction false} MatrixMismatch(lists: seq<seq<real>>, i: nat)
    ensures Matrix(lists) == Err(ShapeMismatch(i)) <==>
      && i < |lists|
      && |lists[i]| != |lists[0]| && |lists[i]| != 1
      && forall k :: 0 <= k < i ==> |lists[k]| == |lists[0]| || |lists[k]| == 1
  {
    if i < |lists| && !Fits(lists[i], |lists[0]|) && forall k :: 0 <= k < i ==> Fits(lists[k], |lists[0]|) {
      var f := FirstWhere(lists, Misfit(|lists[0]|));
      assert f <= i;
      assert f == i;
    }
  }

  /** Every entry of a successful matrix is a number of the object of its row. */
  lemma {:induction false} MatrixEntriesFromObjects(lists: seq<seq<real>>, i: nat, j: nat)
    requires Matrix(lists).Ok? && i < |lists| && j < |lists[0]|
    ensures Matrix(lists).value[i][j] in lists[i]
  {
  }

  /** The objects' numeric vectors, in list order. */
  function ValueLists(objects: seq<FinViz>): (lists: seq<seq<real>>)
    reads objects
    ensures |lists| == |objects| && forall i :: 0 <= i < |objects| ==> lists[i] == objects[i].dataValues
  {
    seq(|objects|, i requires 0 <= i < |objects| reads objects => objects[i].dataValues)
  }

  /** The first `k` rows of `a`, as sequences. */
  ghost function RowsOf(a: array2<real>, k: nat): seq<seq<real>>
    requires k <= a.Length0
    reads a
  {
    seq(k, i requires 0 <= i < k reads a => seq(a.Length1, j requires 0 <= j < a.Length1 reads a => a[i, j]))
  }

  class MachineLearning {
    /** The screened tickers, the main ticker included. */
    const finVizObjects: seq<FinViz>
    /** The matrix once assembled; `None` in the source until then. */
    var xData: array2?<real>

    constructor (finVizObjects: seq<FinViz>)
      ensures this.finVizObjects == finVizObjects && xData == null
    {
      this.finVizObjects := finVizObjects;
      xData := null;
    }

    /**
     * `convert_attributes_to_array`: allocates an n × m matrix, m the length
     * of the first object's value list, and fills row i from object i. An
     * empty object list raises before anything is allocated; a list that does
     * not fit raises with the earlier rows already written.
     */
    method ConvertAttributesToArray() returns (err: Option<Error>)
      modifies this`xData
      ensures err == MatrixError(old(ValueLists(finVizObjects)))
      ensures err == Some(NoObjects) ==> xData == old(xData)
      ensures err != Some(NoObjects) ==>
        && xData != null && fresh(xData)
        && xData.Length0 == |finVizObjects| && xData.Length1 == |finVizObjects[0].dataValues|
      ensures err == None ==> RowsOf(xData, xData.Length0) == Matrix(old(ValueLists(finVizObjects))).value
      ensures err.Some? && err.value.ShapeMismatch? ==>
        var lists := old(ValueLists(finVizObjects))[..err.value.row];
        && err.value.row <= xData.Length0
        && (forall i :: 0 <= i < |lists| ==> Fits(lists[i], xData.Length1))
        && RowsOf(xData, err.value.row) == Filled(lists, xData.Length1)
    {
      ghost var lists := ValueLists(finVizObjects);
      if |finVizObjects| == 0 {
        return Some(NoObjects);
      }
      var m := |finVizObjects[0].dataValues|;
      var x := new real[|finVizObjects|, m];
      xData := x;
      var index := 0;
      while index < |finVizObjects|
        invariant index <= |finVizObjects| && xData == x
        invariant RowsFilled(x, lists, m, index)
      {
        var values := finVizObjects[index].dataValues;
        assert values == lists[index];
        if |values| != m && |values| != 1 {
          MatrixStop(x, lists, index);
          return Some(ShapeMismatch(index));
        }
        AssignRow(x, index, values);
        index := index + 1;
      }
      MatrixDone(x, lists);
      return None;
    }
  }

  /** `x[i, :] = np.asarray(values)`: row `i` becomes the fitted row, every other row is untouched. */
  method AssignRow(x: array2<real>, i: nat, values: seq<real>)
    requires i < x.Length0 && Fits(values, x.Length1)
    modifies x
    ensures forall c :: 0 <= c < x.Length1 ==> x[i, c] == FillRow(values, x.Length1)[c]
    ensures forall r, c :: 0 <= r < x.Length0 && r != i && 0 <= c < x.Length1 ==> x[r, c] == old(x[r, c])
  {
    var row := FillRow(values, x.Length1);
    forall c | 0 <= c < x.Length1 {
      x[i, c] := row[c];
    }
  }

  /** Rows `0 .. k - 1` of `x` hold the first `k` lists, each fitted to a row of width `m`. */
  ghost predicate RowsFilled(x: array2<real>, lists: seq<seq<real>>, m: nat, k: nat)
    requires k <= x.Length0 && k <= |lists| && x.Length1 == m
    reads x
  {
    forall r :: 0 <= r < k ==> Fits(lists[r], m) && forall c :: 0 <= c < m ==> x[r, c] == FillRow(lists[r], m)[c]
  }

  /** The rows written so far, read back as sequences, are the filled rows of the lists read so far. */
  lemma {:induction false} PrefixRows(x: array2<real>, lists: seq<seq<real>>, m: nat, k: nat)
    requires k <= x.Length0 && k <= |lists| && x.Length1 == m
    requires RowsFilled(x, lists, m, k)
    ensures RowsOf(x, k) == Filled(lists[..k], m)
  {
    var rows, want := RowsOf(x, k), Filled(lists[..k], m);
    forall r | 0 <= r < k ensures rows[r] == want[r] {
      assert lists[..k][r] == lists[r];
    }
  }

  /**
   * A fill that reaches a list not fitting the first one's width stops with
   * exactly that error, and the rows before it are the filled earlier lists.
   */
  lemma {:induction false} MatrixStop(x: array2<real>, lists: seq<seq<real>>, k: nat)
    requires lists != [] && k < |lists| && k <= x.Length0 && x.Length1 == |lists[0]|
    requires RowsFilled(x, lists, |lists[0]|, k) && !Fits(lists[k], |lists[0]|)
    ensures MatrixError(lists) == Some(ShapeMismatch(k))
    ensures forall i :: 0 <= i < k ==> Fits(lists[..k][i], |lists[0]|)
    ensures RowsOf(x, k) == Filled(lists[..k], |lists[0]|)
  {
    var m := |lists[0]|;
    assert FirstWhere(lists, Misfit(m)) == k;
    PrefixRows(x, lists, m, k);
  }

  /** A fill that writes every row leaves exactly the assembled matrix. */
  lemma {:induction false} MatrixDone(x: array2<real>, lists: seq<seq<real>>)
    requires lists != [] && x.Length0 == |lists| && x.Length1 == |lists[0]|
    requires RowsFilled(x, lists, |lists[0]|, |lists|)
    ensures MatrixError(lists) == None
    ensures RowsOf(x, |lists|) == Matrix(lists).value
  {
    var m := |lists[0]|;
    assert FirstWhere(lists, Misfit(m)) == |lists|;
    PrefixRows(x, lists, m, |lists|);
    assert lists[..|lists|] == lists;
  }

  /*
   * The data loop of `visualise`: for each ticker, its text for the
   * attribute is read (a KeyError when it has none), kept when `is_number`
   * accepts it as it stands, and dropped when the number is zero, since
   * `if attribute_value:` is false for 0.0.
   */

  /** The figure a ticker contributes to the plot: its value parsed as it stands, unless that fails or is zero. */
  function PlotValue(parse: Parser, text: string): Option<real> {
    if parse(text).Some? && parse(text).value != 0.0 then parse(text) else None
  }

  /** The ticker has no entry for `attribute`: `ticker.data[attribute]` raises KeyError. */
  predicate Lacks(attribute: string, d: Dict<string, string>) {
    attribute !in d.entries
  }

  /** The values present in `s`, in order: what `if v: x.append(v)` keeps. */
  function Present<T>(s: seq<Option<T>>): (r: seq<T>)
    ensures |r| <= |s|
  {
    if s == [] then [] else Present(s[..|s| - 1]) + (if s[|s| - 1].Some? then [s[|s| - 1].value] else [])
  }

  /** The number of present values in `s`. */
  function CountPresent<T>(s: seq<Option<T>>): nat {
    if s == [] then 0 else CountPresent(s[..|s| - 1]) + (if s[|s| - 1].Some? then 1 else 0)
  }

  /** A value is kept iff some element holds it. */
  lemma {:induction false} PresentMembers<T>(s: seq<Option<T>>, x: T)
    ensures x in Present(s) <==> Some(x) in s
  {
    if s != [] {
      var front := s[..|s| - 1];
      PresentMembers(front, x);
      assert s == front + [s[|s| - 1]];
    }
  }

  /** One value per present element: nothing is merged or duplicated. */
  lemma {:induction false} PresentLength<T>(s: seq<Option<T>>)
    ensures |Present(s)| == CountPresent(s)
  {
    if s != [] {
      PresentLength(s[..|s| - 1]);
    }
  }

  /** When every element is present, all values are kept, in order. */
  lemma {:induction false} PresentAll<T>(s: seq<Option<T>>)
    requires forall i :: 0 <= i < |s| ==> s[i].Some?
    ensures |Present(s)| == |s| && forall i :: 0 <= i < |s| ==> s[i] == Some(Present(s)[i])
  {
    if s != [] {
      var front := s[..|s| - 1];
      PresentAll(front);
      assert forall i :: 0 <= i < |front| ==> front[i] == s[i];
    }
  }

  /** The figure each ticker offers for `attribute`, in ticker order. */
  function Figures(parse: Parser, ds: seq<Dict<string, string>>, attribute: string): (fs: seq<Option<real>>)
    requires forall i :: 0 <= i < |ds| ==> attribute in ds[i].entries
    ensures |fs| == |ds|
  {
    if ds == [] then []
    else Figures(parse, ds[..|ds| - 1], attribute) + [PlotValue(parse, ds[|ds| - 1].entries[attribute])]
  }

  /** The figure at position `i` is ticker `i`'s. */
  lemma {:induction false} FiguresAt(parse: Parser, ds: seq<Dict<string, string>>, attribute: string, i: nat)
    requires forall k :: 0 <= k < |ds| ==> attribute in ds[k].entries
    requires i < |ds|
    ensures Figures(parse, ds, attribute)[i] == PlotValue(parse, ds[i].entries[attribute])
  {
    if i < |ds| - 1 {
      FiguresAt(parse, ds[..|ds| - 1], attribute, i);
    }
  }

  /** The figures collected from one more ticker. */
  lemma {:induction false} CollectNext(parse: Parser, ds: seq<Dict<string, string>>, attribute: string, i: nat)
    requires i < |ds| && forall k :: 0 <= k <= i ==> attribute in ds[k].entries
    ensures var v := PlotValue(parse, ds[i].entries[attribute]);
      Present(Figures(parse, ds[..i + 1], attribute)) == Present(Figures(parse, ds[..i], attribute)) + (if v.Some? then [v.value] else [])
  {
    var fs := Figures(parse, ds[..i + 1], attribute);
    assert ds[..i + 1][..i] == ds[..i];
    assert fs[..i] == Figures(parse, ds[..i], attribute);
  }

  /** The first ticker lacking the attribute stops the collection. */
  lemma {:induction false} CollectStopsAt(parse: Parser, ds: seq<Dict<string, string>>, attribute: string, i: nat)
    requires i < |ds| && Lacks(attribute, ds[i]) && forall k :: 0 <= k < i ==> attribute in ds[k].entries
    ensures Collect(parse, ds, attribute) == Err(MissingAttribute(i))
  {
    assert FirstWhere(ds, d => Lacks(attribute, d)) == i;
  }

  /** With no ticker lacking the attribute, the collection succeeds. */
  lemma {:induction false} CollectAllPresent(parse: Parser, ds: seq<Dict<string, string>>, attribute: string)
    requires forall k :: 0 <= k < |ds| ==> attribute in ds[k].entries
    ensures Collect(parse, ds, attribute) == Ok(Present(Figures(parse, ds, attribute)))
  {
    assert FirstWhere(ds, d => Lacks(attribute, d)) == |ds|;
  }

  /** The list `x` collected from the tickers' data, or the KeyError of the first ticker lacking the attribute. */
  function Collect(parse: Parser, ds: seq<Dict<string, string>>, attribute: string): Result<seq<real>, Error> {
    var f := FirstWhere(ds, d => Lacks(attribute, d));
    if f < |ds| then Err(MissingAttribute(f)) else Ok(Present(Figures(parse, ds, attribute)))
  }

  /** The tickers' attribute dicts, in list order. */
  function DataOf(tickers: seq<FinViz>): (ds: seq<Dict<string, string>>)
    reads set t | t in tickers
    ensures |ds| == |tickers| && forall i :: 0 <= i < |tickers| ==> ds[i] == tickers[i].data
  {
    seq(|tickers|, i requires 0 <= i < |tickers| reads set t | t in tickers => tickers[i].data)
  }

  /** A successful collection holds exactly the non-zero numbers that some ticker's text parses to. */
  lemma {:induction false} CollectMembers(parse: Parser, ds: seq<Dict<string, string>>, attribute: string, v: real)
    requires Collect(parse, ds, attribute).Ok?
    ensures v in Collect(parse, ds, attribute).value <==>
      exists i :: 0 <= i < |ds| && PlotValue(parse, ds[i].entries[attribute]) == Some(v)
  {
    var fs := Figures(parse, ds, attribute);
    PresentMembers(fs, v);
    if Some(v) in fs {
      var i :| 0 <= i < |fs| && fs[i] == Some(v);
      FiguresAt(parse, ds, attribute, i);
    }
    if exists i :: 0 <= i < |ds| && PlotValue(parse, ds[i].entries[attribute]) == Some(v) {
      var i :| 0 <= i < |ds| && PlotValue(parse, ds[i].entries[attribute]) == Some(v);
      FiguresAt(parse, ds, attribute, i);
    }
  }

  /** One figure per ticker whose text is a non-zero number: nothing is merged or duplicated. */
  lemma {:induction false} CollectLength(parse: Parser, ds: seq<Dict<string, string>>, attribute: string)
    requires Collect(parse, ds, attribute).Ok?
    ensures |Collect(parse, ds, attribute).value| == CountPresent(Figures(parse, ds, attribute))
  {
    PresentLength(Figures(parse, ds, attribute));
  }

  /** When every ticker's text is a non-zero number, the collection is all of them, in ticker order. */
  lemma {:induction false} CollectAll(parse: Parser, ds: seq<Dict<string, string>>, attribute: string)
    requires Collect(parse, ds, attribute).Ok?
    requires forall i :: 0 <= i < |ds| ==> PlotValue(parse, ds[i].entries[attribute]).Some?
    ensures var x := Collect(parse, ds, attribute).value;
      |x| == |ds| && forall i :: 0 <= i < |ds| ==> PlotValue(parse, ds[i].entries[attribute]) == Some(x[i])
  {
    var fs := Figures(parse, ds, attribute);
    forall i | 0 <= i < |ds| ensures fs[i] == PlotValue(parse, ds[i].entries[attribute]) {
      FiguresAt(parse, ds, attribute, i);
    }
    PresentAll(fs);
  }

  /** The collection fails exactly when some ticker lacks the attribute, and names the first such ticker. */
  lemma {:induction false} CollectError(parse: Parser, ds: seq<Dict<string, string>>, attribute: string)
    ensures Collect(parse, ds, attribute).Err? <==> exists i :: 0 <= i < |ds| && Lacks(attribute, ds[i])
    ensures Collect(parse, ds, attribute).Err? ==>
      var i := Collect(parse, ds, attribute).error.ticker;
      i < |ds| && Lacks(attribute, ds[i]) && forall k :: 0 <= k < i ==> !Lacks(attribute, ds[k])
  {
  }

  /** A zero figure is left out of the plot, even though it parses: "0" is falsy once converted. */
  lemma ZeroDropped()
    ensures IsNumber("0") && PlotValue(ParseFloat, "0") == None
  {
    ParseShowNat(0);
    assert ShowNat(0) == "0";
  }

  /** Unlike the vector derivation, the plot does not retry without the unit: "7%" is left out. */
  lemma {:induction false} UnitDropped(n: nat, unit: char)
    requires !IsDigit(unit) && unit != '.' && !Text.IsSpace(unit)
    ensures PlotValue(ParseFloat, ShowNat(n) + [unit]) == None
    ensures n != 0 ==> Resolve(ParseFloat, ShowNat(n) + [unit]) == Some(n as real)
  {
    UnitSuffixNotNumber(ShowNat(n), unit);
    ResolveWithUnit(n, unit);
  }

  class CompareFinViz {
    /** The tickers to compare. */
    const tickers: seq<FinViz>

    constructor (finVizObjects: seq<FinViz>)
      ensures tickers == finVizObjects
    {
      tickers := finVizObjects;
    }

    /**
     * The data loop of `visualise(attribute, …)`: the non-zero numeric
     * figures of the tickers for `attribute`, in ticker order, or the
     * KeyError of the first ticker without it. The source appends each figure
     * as a 1-tuple `(attribute_value,)` for the plotting call; the model keeps
     * the figure itself.
     */
    method Visualise(attribute: string) returns (x: Result<seq<real>, Error>)
      ensures x == Collect(ParseFloat, DataOf(tickers), attribute)
    {
      ghost var ds := DataOf(tickers);
      var plotted: seq<real> := [];
      var i := 0;
      while i < |tickers|
        invariant i <= |tickers|
        invariant forall k :: 0 <= k < i ==> attribute in ds[k].entries
        invariant plotted == Present(Figures(ParseFloat, ds[..i], attribute))
      {
        var data := tickers[i].data;
        assert data == ds[i];
        if attribute !in data.entries {
          CollectStopsAt(ParseFloat, ds, attribute, i);
          return Err(MissingAttribute(i));
        }
        var text := data.entries[attribute];
        var figure := PlotValue(ParseFloat, text);
        CollectNext(ParseFloat, ds, attribute, i);
        if figure.Some? {
          plotted := plotted + [figure.value];
        }
        i := i + 1;
      }
      CollectAllPresent(ParseFloat, ds, attribute);
      assert ds[..i] == ds;
      return Ok(plotted);
    }
  }
}
