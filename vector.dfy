/**
 * The numeric attribute vector of a ticker: one pass over the scraped
 * `data` dict that keeps the important attributes whose value reads as a
 * number, directly or once its unit character is dropped.
 */
module Vector {
  import opened Wrappers
  import opened Seqs
  import opened Dicts
  import opened Coercion
  import opened Text

  /**
   * What one pass over the dict yields: the names appended to
   * `data_type_list`, the numbers appended to `data_values_list`, and the
   * set `data_not_there` of important names whose value did not resolve.
   */
  datatype Derived = Derived(types: seq<string>, values: seq<real>, missing: set<string>)

  /** The attribute `k` is important, present, and its value resolves to a number. */
  predicate Kept(parse: Parser, d: Dict<string, string>, important: set<string>, k: string) {
    k in important && k in d.entries && Resolve(parse, d.entries[k]).Some?
  }

  /** The attribute `k` is important and present, but its value does not resolve. */
  predicate Unresolved(parse: Parser, d: Dict<string, string>, important: set<string>, k: string) {
    k in important && k in d.entries && Resolve(parse, d.entries[k]).None?
  }

  /** One iteration of the pass, for the item with key `k`. */
  function Visit(parse: Parser, d: Dict<string, string>, important: set<string>, k: string, acc: Derived): Derived
    requires k in d.entries
  {
    if k !in important then acc
    else
      match Resolve(parse, d.entries[k])
      case Some(x) => Derived(acc.types + [k], acc.values + [x], acc.missing)
      case None => Derived(acc.types, acc.values, acc.missing + {k})
  }

  /** The pass over the first `n` items of the dict, in insertion order. */
  function DerivePrefix(parse: Parser, d: Dict<string, string>, important: set<string>, n: nat): (r: Derived)
    requires d.Valid() && n <= |d.keys|
    ensures |r.types| == |r.values|
  {
    if n == 0 then Derived([], [], {})
    else Visit(parse, d, important, d.keys[n - 1], DerivePrefix(parse, d, important, n - 1))
  }

  /** One more item of the dict: skipped, appended to the vector, or reported missing. */
  lemma {:induction false} DeriveNext(parse: Parser, d: Dict<string, string>, important: set<string>, i: nat)
    requires d.Valid() && i < |d.keys|
    ensures var prev := DerivePrefix(parse, d, important, i);
      var k := d.keys[i];
      var next := DerivePrefix(parse, d, important, i + 1);
      && (k !in important ==> next == prev)
      && (k in important && Resolve(parse, d.entries[k]).Some? ==>
            next == Derived(prev.types + [k], prev.values + [Resolve(parse, d.entries[k]).value], prev.missing))
      && (k in important && Resolve(parse, d.entries[k]).None? ==>
            next == Derived(prev.types, prev.values, prev.missing + {k}))
  {
  }

  /** The pass over the whole dict. */
  function Derive(parse: Parser, d: Dict<string, string>, important: set<string>): Derived
    requires d.Valid()
  {
    DerivePrefix(parse, d, important, |d.keys|)
  }

  /** The names are exactly the kept attributes, in the dict's order. */
  lemma {:induction false} DeriveTypes(parse: Parser, d: Dict<string, string>, important: set<string>, n: nat)
    requires d.Valid() && n <= |d.keys|
    ensures DerivePrefix(parse, d, important, n).types == Filter(d.keys[..n], k => Kept(parse, d, important, k))
  {
    if n > 0 {
      DeriveTypes(parse, d, important, n - 1);
      assert d.keys[..n][..n - 1] == d.keys[..n - 1];
    }
  }

  /** Each number is what the value stored under the name at the same position resolves to. */
  ghost predicate Aligned(parse: Parser, d: Dict<string, string>, r: Derived) {
    |r.types| == |r.values| &&
    forall i :: 0 <= i < |r.types| ==> r.types[i] in d.entries && Resolve(parse, d.entries[r.types[i]]) == Some(r.values[i])
  }

  lemma {:induction false} VisitAligned(parse: Parser, d: Dict<string, string>, important: set<string>, k: string, acc: Derived)
    requires k in d.entries && Aligned(parse, d, acc)
    ensures Aligned(parse, d, Visit(parse, d, important, k, acc))
  {
  }

  /** The names and numbers stay aligned through the whole pass. */
  lemma {:induction false} DeriveValues(parse: Parser, d: Dict<string, string>, important: set<string>, n: nat)
    requires d.Valid() && n <= |d.keys|
    ensures Aligned(parse, d, DerivePrefix(parse, d, important, n))
  {
    if n > 0 {
      DeriveValues(parse, d, important, n - 1);
      VisitAligned(parse, d, important, d.keys[n - 1], DerivePrefix(parse, d, important, n - 1));
    }
  }

  /** `data_not_there` holds exactly the important attributes whose value does not resolve. */
  lemma {:induction false} DeriveMissing(parse: Parser, d: Dict<string, string>, important: set<string>, n: nat)
    requires d.Valid() && n <= |d.keys|
    ensures forall k :: k in DerivePrefix(parse, d, important, n).missing <==> k in d.keys[..n] && Unresolved(parse, d, important, k)
  {
    if n > 0 {
      DeriveMissing(parse, d, important, n - 1);
      assert d.keys[..n] == d.keys[..n - 1] + [d.keys[n - 1]];
    }
  }

  /** No name is listed twice, because dict keys are distinct. */
  lemma {:induction false} DeriveDistinct(parse: Parser, d: Dict<string, string>, important: set<string>)
    requires d.Valid()
    ensures Distinct(Derive(parse, d, important).types)
  {
    DeriveTypes(parse, d, important, |d.keys|);
    assert d.keys[..|d.keys|] == d.keys;
    FilterDistinct(d.keys, k => Kept(parse, d, important, k));
  }

  /**
   * Every important attribute present in the dict ends up in exactly one of
   * the two outputs: the name list or `data_not_there`.
   */
  lemma {:induction false} DerivePartition(parse: Parser, d: Dict<string, string>, important: set<string>, k: string)
    requires d.Valid() && k in important && k in d.entries
    ensures k in Derive(parse, d, important).types <==> k !in Derive(parse, d, important).missing
  {
    DeriveTypes(parse, d, important, |d.keys|);
    DeriveMissing(parse, d, important, |d.keys|);
    assert d.keys[..|d.keys|] == d.keys;
  }

  /** Attributes that are not important appear in neither output. */
  lemma {:induction false} DeriveIgnores(parse: Parser, d: Dict<string, string>, important: set<string>, k: string)
    requires d.Valid() && k !in important
    ensures k !in Derive(parse, d, important).types && k !in Derive(parse, d, important).missing
  {
    DeriveTypes(parse, d, important, |d.keys|);
    DeriveMissing(parse, d, important, |d.keys|);
  }

  /** Every kept attribute is listed among the names. */
  lemma {:induction false} KeptListed(parse: Parser, d: Dict<string, string>, important: set<string>, k: string)
    requires d.Valid() && Kept(parse, d, important, k)
    ensures k in Derive(parse, d, important).types
  {
    DeriveTypes(parse, d, important, |d.keys|);
    assert d.keys[..|d.keys|] == d.keys;
  }

  /** An important attribute with an empty value is reported missing: `float('')` raises twice. */
  lemma {:induction false} EmptyValueMissing(d: Dict<string, string>, important: set<string>, k: string)
    requires d.Valid() && k in important && d.Get(k) == Some("")
    ensures k in Derive(ParseFloat, d, important).missing
  {
    ResolveEmpty();
    DeriveMissing(ParseFloat, d, important, |d.keys|);
    assert d.keys[..|d.keys|] == d.keys;
  }

  /**
   * An important attribute whose value is a whole number followed by a unit
   * character such as '%' or 'B' is kept, with the number as its value.
   */
  lemma {:induction false} UnitValueKept(d: Dict<string, string>, important: set<string>, k: string, n: nat, unit: char)
    requires d.Valid() && k in important && d.Get(k) == Some(ShowNat(n) + [unit])
    requires !IsDigit(unit) && unit != '.' && !IsSpace(unit)
    ensures var r := Derive(ParseFloat, d, important);
      k in r.types && forall i :: 0 <= i < |r.types| && r.types[i] == k ==> r.values[i] == n as real
  {
    ResolveWithUnit(n, unit);
    KeptListed(ParseFloat, d, important, k);
    DeriveValues(ParseFloat, d, important, |d.keys|);
  }
}
