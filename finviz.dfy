/**
 * One screened ticker: its snapshot attributes, the numeric vector derived
 * from them, and the sector screener links of its quote page. The page is
 * given as its already-parsed snapshot table and `tab-link` anchors.
 */
module Ticker {
  import opened Wrappers
  import opened Errors
  import opened Seqs
  import opened Text
  import opened Dicts
  import opened Coercion
  import opened Extraction
  import opened Vector
  import opened SectorLinks

  class FinViz {
    /** The ticker symbol, upper-cased. */
    var ticker: string
    var importantAttributes: set<string>
    /** The optional screener volume filter, such as `sh_avgvol_o500`. */
    var minVolume: Option<string>
    /** Attribute label to attribute text, in the order the labels were first seen. */
    var data: Dict<string, string>
    /** `data_values_list` and `data_type_list`: the numeric vector and its attribute names. */
    var dataValues: seq<real>
    var dataTypes: seq<string>

    ghost predicate Valid()
      reads this
    {
      data.Valid() && |dataValues| == |dataTypes|
    }

    /** The field set-up of `__init__`, before any page is read. */
    constructor (ticker: string, importantAttributes: seq<string>, minVolume: Option<string>)
      ensures Valid()
      ensures this.ticker == Upper(ticker)
      ensures this.importantAttributes == Elements(importantAttributes)
      ensures this.minVolume == minVolume
      ensures data == Empty() && dataValues == [] && dataTypes == []
    {
      this.ticker := Upper(ticker);
      this.importantAttributes := Elements(importantAttributes);
      this.minVolume := minVolume;
      data := Empty();
      dataValues := [];
      dataTypes := [];
    }

    /**
     * The innermost loop of `get_data`: zips the children of a label cell with
     * those of its value cell and stores each label's stripped value.
     */
    method ReadPair(labels: Cell, values: Cell)
      modifies this`data
      ensures data == PutAll(old(data), ZipWrites(labels, values))
    {
      ghost var start := data;
      ghost var z := ZipWrites(labels, values);
      var t := 0;
      while t < |labels| && t < |values|
        invariant t <= |z|
        invariant data == PutAll(start, z[..t])
      {
        var key, value := labels[t], Strip(values[t]);
        ZipAt(labels, values, t);
        PutAllSnoc(start, z[..t], (key, value));
        TakeOne(z, t);
        data := data.Put(key, value);
        t := t + 1;
      }
      assert z[..t] == z;
    }

    /**
     * The loop of `get_data` over the column pairs (0, 1), (2, 3), …, (10, 11)
     * of one row. It reports whether the row had all twelve cells; a shorter
     * row stops at the first pair it lacks, as `cols[column_number]` raises.
     */
    method ReadRow(cols: Row) returns (complete: bool)
      modifies this`data
      ensures complete == !IsShort(cols)
      ensures data == PutAll(old(data), RowWrites(cols))
    {
      ghost var start := data;
      var column := 0;
      ghost var j := 0;
      while column <= 10
        invariant column == 2 * j && PairsDone(start, data, cols, j)
      {
        if |cols| <= column + 1 {
          ShortRowWrites(start, data, cols, j);
          return false;
        }
        assert cols[column] == cols[2 * j] && cols[column + 1] == cols[2 * j + 1];
        ghost var before := data;
        ReadPair(cols[column], cols[column + 1]);
        PairStep(start, before, data, cols, j);
        column := column + 2;
        j := j + 1;
      }
      FullRowWrites(start, data, cols);
      return true;
    }

    /**
     * `get_data`: writes every label/value pair of the snapshot table into
     * `data`, row by row and column pair by column pair. A missing table or a
     * row with fewer than twelve cells stops it with the writes made so far kept.
     */
    method GetData(table: Option<Grid>) returns (err: Option<Error>)
      modifies this`data
      ensures err == ExtractError(table)
      ensures table.None? ==> data == old(data)
      ensures table.Some? ==> data == PutAll(old(data), GridWrites(table.value))
      ensures old(data).Valid() ==> data.Valid()
    {
      if table.None? {
        return Some(MissingTable);
      }
      var rows := table.value;
      ghost var start := data;
      var i := 0;
      while i < |rows|
        invariant i <= |rows|
        invariant i <= FirstWhere(rows, IsShort)
        invariant data == PutAll(start, RowsWrites(rows[..i]))
      {
        PutAllAppend(start, RowsWrites(rows[..i]), RowWrites(rows[i]));
        var complete := ReadRow(rows[i]);
        if !complete {
          GridWritesShort(rows, i);
          if start.Valid() {
            PutAllValid(start, GridWrites(rows));
          }
          return Some(ShortRow(i));
        }
        assert i != FirstWhere(rows, IsShort);
        RowsWritesNext(rows, i);
        i := i + 1;
      }
      GridWritesFull(rows);
      assert rows[..i] == rows;
      if start.Valid() {
        PutAllValid(start, GridWrites(rows));
      }
      return None;
    }

    /**
     * `get_data_values`: appends every important attribute whose text
     * resolves to a number, in the order of `data`, and returns the set of
     * important attributes that did not resolve.
     */
    method GetDataValues() returns (missing: set<string>)
      requires Valid()
      modifies this`dataValues, this`dataTypes
      ensures Valid()
      ensures dataTypes == old(dataTypes) + Derive(ParseFloat, data, importantAttributes).types
      ensures dataValues == old(dataValues) + Derive(ParseFloat, data, importantAttributes).values
      ensures missing == Derive(ParseFloat, data, importantAttributes).missing
    {
      var d := data;
      var important := importantAttributes;
      missing := {};
      var i := 0;
      while i < |d.keys|
        invariant i <= |d.keys|
        invariant dataTypes == old(dataTypes) + DerivePrefix(ParseFloat, d, important, i).types
        invariant dataValues == old(dataValues) + DerivePrefix(ParseFloat, d, important, i).values
        invariant missing == DerivePrefix(ParseFloat, d, important, i).missing
      {
        var name := d.keys[i];
        var value := d.entries[name];
        DeriveNext(ParseFloat, d, important, i);
        ghost var prev := DerivePrefix(ParseFloat, d, important, i);
        if name in important {
          if IsNumber(value) {
            AppendSnoc(old(dataValues), prev.values, ParseFloat(value).value);
            AppendSnoc(old(dataTypes), prev.types, name);
            dataValues := dataValues + [ParseFloat(value).value];
            dataTypes := dataTypes + [name];
          } else {
            var trimmed := ParseFloat(DropLast(value));
            if trimmed.Some? {
              AppendSnoc(old(dataValues), prev.values, trimmed.value);
              AppendSnoc(old(dataTypes), prev.types, name);
              dataValues := dataValues + [trimmed.value];
              dataTypes := dataTypes + [name];
            } else {
              missing := missing + {name};
            }
          }
        }
        i := i + 1;
      }
      assert |dataTypes| == |dataValues|;
    }

    /**
     * The link-selection loop of `compare_to_market`: the dict from sector
     * name to screener URL, or the KeyError of the first anchor without an href.
     */
    method CompareToMarket(allLinks: seq<Link>) returns (r: Result<Dict<string, string>, Error>)
      ensures r == RelatedLinks(allLinks, minVolume)
    {
      var related := Empty();
      var i := 0;
      while i < |allLinks|
        invariant i <= FirstWhere(allLinks, NoHref)
        invariant related == PutAll(Empty(), LinkWrites(allLinks[..i], minVolume))
      {
        var link := allLinks[i];
        if link.href.None? {
          return Err(MissingHref(i));
        }
        var href := link.href.value;
        FirstWhereStep(allLinks, NoHref, i);
        RelatedNext(allLinks, minVolume, i);
        if Contains(href, "screener") {
          var url;
          if Truthy(minVolume) {
            url := Site + href + "," + minVolume.value;
          } else {
            url := Site + href;
          }
          assert IsScreener(link) && url == LinkUrl(href, minVolume);
          related := related.Put(link.text, url);
        }
        i := i + 1;
      }
      assert allLinks[..i] == allLinks;
      return Ok(related);
    }

    /**
     * `FinViz(...)`: sets up the fields, reads the snapshot table, derives the
     * numeric vector and, when asked to, selects the sector links. Any
     * exception aborts construction; otherwise the object is returned with
     * the set of unresolved attributes that `__init__` prints.
     */
    static method Create(ticker: string, importantAttributes: seq<string>, minVolume: Option<string>,
                         compareToMarkets: bool, table: Option<Grid>, allLinks: seq<Link>)
      returns (r: Result<FinViz, Error>, missing: set<string>)
      ensures r.Err? <==> Extract(table).Err? || (compareToMarkets && RelatedLinks(allLinks, minVolume).Err?)
      ensures r.Err? ==> r.error == if Extract(table).Err? then Extract(table).error else RelatedLinks(allLinks, minVolume).error
      ensures r.Ok? ==> fresh(r.value) && r.value.Valid()
      ensures r.Ok? ==> r.value.ticker == Upper(ticker) && r.value.minVolume == minVolume
      ensures r.Ok? ==> r.value.importantAttributes == Elements(importantAttributes)
      ensures r.Ok? ==> r.value.data == Extract(table).value
      ensures r.Ok? ==> var v := Derive(ParseFloat, r.value.data, Elements(importantAttributes));
        r.value.dataTypes == v.types && r.value.dataValues == v.values && missing == v.missing
    {
      var f := new FinViz(ticker, importantAttributes, minVolume);
      missing := {};
      var err := f.GetData(table);
      if err.Some? {
        return Err(err.value), missing;
      }
      GridWritesFull(table.value);
      PutAllValid(Empty(), GridWrites(table.value));
      missing := f.GetDataValues();
      if compareToMarkets {
        var links := f.CompareToMarket(allLinks);
        if links.Err? {
          return Err(links.error), missing;
        }
      }
      return Ok(f), missing;
    }
  }
}
