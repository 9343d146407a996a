/** The list transforms that the server handlers and the pages apply to a poll's options:
    the vote total, the filter by id, the update of the first or of every option with an id,
    and the "max numeric id + 1" id allocation. Option ids are not assumed unique. */
module OptionLists {
  import opened Wrappers
  import opened JsText
  import opened PollSchema

  // ---- the vote total --------------------------------------------------------

  /** `options.reduce((acc, option) => acc + option.optionCount, 0)` */
  function Total(opts: seq<PollOption>): (r: nat)
    ensures r == 0 <==> forall i :: 0 <= i < |opts| ==> opts[i].optionCount == 0
  {
    if opts == [] then 0 else opts[0].optionCount + Total(opts[1..])
  }

  lemma {:induction false} TotalAppend(a: seq<PollOption>, b: seq<PollOption>)
    ensures Total(a + b) == Total(a) + Total(b)
  {
    if a != [] {
      assert (a + b)[1..] == a[1..] + b;
      TotalAppend(a[1..], b);
    } else {
      assert a + b == b;
    }
  }

  /** Replacing one option changes the total by the difference of the two counts. */
  lemma {:induction false} TotalUpdate(opts: seq<PollOption>, k: nat, o: PollOption)
    requires k < |opts|
    ensures Total(opts[k := o]) + opts[k].optionCount == Total(opts) + o.optionCount
  {
    if k > 0 {
      assert opts[k := o][1..] == opts[1..][k - 1 := o];
      TotalUpdate(opts[1..], k - 1, o);
    } else {
      assert opts[k := o][1..] == opts[1..];
    }
  }

  // ---- looking options up by id ------------------------------------------------

  predicate HasOption(opts: seq<PollOption>, id: string) {
    exists i :: 0 <= i < |opts| && opts[i].id == id
  }

  /** The number of options carrying `id`. */
  function CountId(opts: seq<PollOption>, id: string): (n: nat)
    ensures n <= |opts|
    ensures n > 0 <==> HasOption(opts, id)
  {
    if opts == [] then 0
    else
      assert forall i :: 1 <= i < |opts| ==> opts[i] == opts[1..][i - 1];
      (if opts[0].id == id then 1 else 0) + CountId(opts[1..], id)
  }

  /** `options.findIndex(o => o.id === id)`, or `None` when no option matches. */
  function FindIndex(opts: seq<PollOption>, id: string): (r: Option<nat>)
    ensures r.None? <==> !HasOption(opts, id)
    ensures r.Some? ==> r.value < |opts| && opts[r.value].id == id
    ensures r.Some? ==> forall j :: 0 <= j < r.value ==> opts[j].id != id
  {
    if opts == [] then None
    else if opts[0].id == id then Some(0)
    else
      assert forall i :: 1 <= i < |opts| ==> opts[i] == opts[1..][i - 1];
      match FindIndex(opts[1..], id)
      case None => None
      case Some(k) => Some(k + 1)
  }

  // ---- filtering out an id -----------------------------------------------------

  /** `options.filter(o => o.id !== id)` */
  function Without(opts: seq<PollOption>, id: string): (r: seq<PollOption>)
    ensures |r| + CountId(opts, id) == |opts|
    ensures forall i :: 0 <= i < |r| ==> r[i].id != id
    ensures forall o :: o in r <==> o in opts && o.id != id
  {
    if opts == [] then []
    else
      assert opts == [opts[0]] + opts[1..];
      if opts[0].id == id then Without(opts[1..], id)
      else [opts[0]] + Without(opts[1..], id)
  }

  /** The filter keeps order: it distributes over concatenation. */
  lemma {:induction false} WithoutConcat(a: seq<PollOption>, b: seq<PollOption>, id: string)
    ensures Without(a + b, id) == Without(a, id) + Without(b, id)
  {
    if a != [] {
      assert (a + b)[1..] == a[1..] + b;
      assert (a + b)[0] == a[0];
      WithoutConcat(a[1..], b, id);
    } else {
      assert a + b == b;
    }
  }

  /** Filtering out an id no option carries changes nothing. */
  lemma {:induction false} WithoutAbsent(opts: seq<PollOption>, id: string)
    requires !HasOption(opts, id)
    ensures Without(opts, id) == opts
  {
    if opts != [] {
      assert forall i :: 1 <= i < |opts| ==> opts[i] == opts[1..][i - 1];
      WithoutAbsent(opts[1..], id);
    }
  }

  /** The filter shortens the list exactly when some option carries the id
      (the test the delete handler uses to report a missing option). */
  lemma WithoutShortensIff(opts: seq<PollOption>, id: string)
    ensures |Without(opts, id)| == |opts| <==> !HasOption(opts, id)
    ensures |Without(opts, id)| == |opts| ==> Without(opts, id) == opts
  {
    if !HasOption(opts, id) {
      WithoutAbsent(opts, id);
    }
  }

  /** Filtering twice by the same id is filtering once. */
  lemma WithoutIdempotent(opts: seq<PollOption>, id: string)
    ensures Without(Without(opts, id), id) == Without(opts, id)
  {
    WithoutAbsent(Without(opts, id), id);
  }

  // ---- updating options with an id -------------------------------------------

  /** One more vote. */
  function Bump(o: PollOption): (b: PollOption)
    ensures b.id == o.id && b.optionName == o.optionName
    ensures b.optionCount == o.optionCount + 1
  {
    o.(optionCount := o.optionCount + 1)
  }

  /** A new name, the id and the count kept. */
  function Renamed(o: PollOption, optionName: string): (r: PollOption)
    ensures r.id == o.id && r.optionCount == o.optionCount && r.optionName == optionName
  {
    o.(optionName := optionName)
  }

  /** Applies `f` to the first option carrying `id` only (what `find` followed by an
      update, or the positional `$` update of the store, does). */
  function MapFirst(opts: seq<PollOption>, id: string, f: PollOption -> PollOption): (r: seq<PollOption>)
    ensures |r| == |opts|
    ensures FindIndex(opts, id).None? ==> r == opts
    ensures FindIndex(opts, id).Some? ==>
      var k := FindIndex(opts, id).value;
      r[k] == f(opts[k]) && forall j :: 0 <= j < |opts| && j != k ==> r[j] == opts[j]
  {
    if opts == [] then []
    else if opts[0].id == id then [f(opts[0])] + opts[1..]
    else [opts[0]] + MapFirst(opts[1..], id, f)
  }

  /** `options.map(o => o.id === id ? f(o) : o)` */
  function MapAll(opts: seq<PollOption>, id: string, f: PollOption -> PollOption): (r: seq<PollOption>)
    ensures |r| == |opts|
    ensures forall i :: 0 <= i < |opts| ==> r[i] == if opts[i].id == id then f(opts[i]) else opts[i]
  {
    if opts == [] then []
    else [if opts[0].id == id then f(opts[0]) else opts[0]] + MapAll(opts[1..], id, f)
  }

  /** A vote for an id some option carries adds exactly one to the total. */
  lemma TotalBumpFirst(opts: seq<PollOption>, id: string)
    requires HasOption(opts, id)
    ensures Total(MapFirst(opts, id, Bump)) == Total(opts) + 1
  {
    var k := FindIndex(opts, id).value;
    var r := MapFirst(opts, id, Bump);
    assert r == opts[k := Bump(opts[k])];
    TotalUpdate(opts, k, Bump(opts[k]));
  }

  /** Bumping every option with an id adds the number of such options to the total. */
  lemma {:induction false} TotalBumpAll(opts: seq<PollOption>, id: string)
    ensures Total(MapAll(opts, id, Bump)) == Total(opts) + CountId(opts, id)
  {
    if opts != [] {
      var r := MapAll(opts, id, Bump);
      assert r[1..] == MapAll(opts[1..], id, Bump);
      TotalBumpAll(opts[1..], id);
    }
  }

  /** When the ids are unique, updating all matches is updating the first one. */
  lemma MapAllUniqueIsMapFirst(opts: seq<PollOption>, id: string, f: PollOption -> PollOption)
    requires UniqueIds(opts)
    ensures MapAll(opts, id, f) == MapFirst(opts, id, f)
  {
  }

  // ---- uniqueness and id allocation ----------------------------------------------

  predicate UniqueIds(opts: seq<PollOption>) {
    forall i, j :: 0 <= i < j < |opts| ==> opts[i].id != opts[j].id
  }

  predicate NumericIds(opts: seq<PollOption>) {
    forall i :: 0 <= i < |opts| ==> IsDecimalNumeral(opts[i].id)
  }

  /** On unique ids, an id some option carries is carried by exactly one. */
  lemma {:induction false} UniqueCountOne(opts: seq<PollOption>, id: string)
    requires UniqueIds(opts) && HasOption(opts, id)
    ensures CountId(opts, id) == 1
  {
    assert forall i :: 1 <= i < |opts| ==> opts[i] == opts[1..][i - 1];
    if opts[0].id == id {
      assert !HasOption(opts[1..], id);
    } else {
      UniqueCountOne(opts[1..], id);
    }
  }

  /** Filtering keeps ids unique. */
  lemma {:induction false} WithoutKeepsUnique(opts: seq<PollOption>, id: string)
    requires UniqueIds(opts)
    ensures UniqueIds(Without(opts, id))
  {
    if opts != [] {
      assert forall i :: 1 <= i < |opts| ==> opts[i] == opts[1..][i - 1];
      WithoutKeepsUnique(opts[1..], id);
      var rest := Without(opts[1..], id);
      forall o | o in rest ensures o.id != opts[0].id {
        assert o in opts[1..];
      }
    }
  }

  /** `Math.max(a, b)`: NaN as soon as either side is NaN. */
  function JsMax(a: JsNumber, b: JsNumber): (r: JsNumber)
    ensures r.NaN? <==> a.NaN? || b.NaN?
    ensures r.Finite? ==> (r == a || r == b) && a.value <= r.value && b.value <= r.value
  {
    if a.NaN? || b.NaN? then NaN
    else Finite(if a.value >= b.value then a.value else b.value)
  }

  /** `Math.max(...options.map(o => parseInt(o.id)))` for a non-empty list. */
  function MaxParsedId(opts: seq<PollOption>): (r: JsNumber)
    requires opts != []
    ensures r.NaN? <==> exists i :: 0 <= i < |opts| && ParseInt(opts[i].id).NaN?
    ensures r.Finite? ==> exists i :: 0 <= i < |opts| && ParseInt(opts[i].id) == r
    ensures r.Finite? ==> forall i :: 0 <= i < |opts| ==> ParseInt(opts[i].id).value <= r.value
  {
    if |opts| == 1 then ParseInt(opts[0].id)
    else
      assert forall i :: 1 <= i < |opts| ==> opts[i] == opts[1..][i - 1];
      JsMax(ParseInt(opts[0].id), MaxParsedId(opts[1..]))
  }

  /** The id the add-option handler allocates: one past the largest parsed id,
      `"1"` for an empty list, `"NaN"` when some id does not start with a digit. */
  function NextOptionId(opts: seq<PollOption>): (r: string)
    ensures r == "NaN" <==> exists i :: 0 <= i < |opts| && ParseInt(opts[i].id).NaN?
    ensures r != "NaN" ==>
      && IsDecimalNumeral(r)
      && (opts == [] ==> ParseInt(r) == Finite(1))
      && (forall i :: 0 <= i < |opts| ==> ParseInt(opts[i].id).Finite? && ParseInt(opts[i].id).value < ParseInt(r).value)
      && !HasOption(opts, r)
  {
    if opts == [] then
      ParseIntNatToDecimal(1);
      NatToDecimal(1)
    else match MaxParsedId(opts)
      case NaN => "NaN"
      case Finite(m) =>
        ParseIntNatToDecimal(m + 1);
        NatToDecimal(m + 1)
  }

  /** On numeric ids the maximum is finite, reached by some id and above every id. */
  lemma {:induction false} MaxParsedIdNumeric(opts: seq<PollOption>)
    requires opts != [] && NumericIds(opts)
    ensures MaxParsedId(opts).Finite?
    ensures exists i :: 0 <= i < |opts| && ParseInt(opts[i].id) == MaxParsedId(opts)
    ensures forall i :: 0 <= i < |opts| ==>
      ParseInt(opts[i].id).Finite? && ParseInt(opts[i].id).value <= MaxParsedId(opts).value
  {
    forall i | 0 <= i < |opts| ensures ParseInt(opts[i].id).Finite? {
      ParseIntOfNumeral(opts[i].id);
    }
    if |opts| > 1 {
      var rest := opts[1..];
      assert forall i :: 1 <= i < |opts| ==> opts[i] == rest[i - 1];
      MaxParsedIdNumeric(rest);
      var j :| 0 <= j < |rest| && ParseInt(rest[j].id) == MaxParsedId(rest);
      if ParseInt(opts[0].id).value < MaxParsedId(rest).value {
        assert ParseInt(opts[j + 1].id) == MaxParsedId(opts);
      }
    }
  }

  /** On numeric ids, the allocated id is a numeral whose value is one past the largest id
      (1 for an empty list), so it differs from every existing id. */
  lemma NextOptionIdFresh(opts: seq<PollOption>)
    requires NumericIds(opts)
    ensures IsDecimalNumeral(NextOptionId(opts))
    ensures ParseInt(NextOptionId(opts)).Finite?
    ensures opts == [] ==> ParseInt(NextOptionId(opts)) == Finite(1)
    ensures opts != [] ==>
      (exists i :: 0 <= i < |opts| && ParseInt(opts[i].id).Finite? &&
        ParseInt(opts[i].id).value + 1 == ParseInt(NextOptionId(opts)).value)
    ensures forall i :: 0 <= i < |opts| ==>
      ParseInt(opts[i].id).Finite? && ParseInt(opts[i].id).value < ParseInt(NextOptionId(opts)).value
    ensures !HasOption(opts, NextOptionId(opts))
    ensures opts == [] ==> NextOptionId(opts) == "1"
    ensures opts != [] ==>
      exists i :: 0 <= i < |opts| && ParseInt(opts[i].id).Finite? &&
        NextOptionId(opts) == NatToDecimal(ParseInt(opts[i].id).value + 1)
  {
    if opts == [] {
      assert NatToDecimal(1) == "1";
      ParseIntNatToDecimal(1);
    } else {
      MaxParsedIdNumeric(opts);
      var m := MaxParsedId(opts).value;
      ParseIntNatToDecimal(m + 1);
    }
  }

  /** Appending an option under the allocated id keeps numeric ids unique. */
  lemma AppendNextIdKeepsUnique(opts: seq<PollOption>, optionName: string)
    requires NumericIds(opts) && UniqueIds(opts)
    ensures var r := opts + [NewOption(NextOptionId(opts), optionName)];
      NumericIds(r) && UniqueIds(r)
  {
    var id := NextOptionId(opts);
    assert IsDecimalNumeral(id) && !HasOption(opts, id) by {
      forall i | 0 <= i < |opts| ensures ParseInt(opts[i].id).Finite? {
        assert IsDigit(opts[i].id[0]);
      }
    }
    var r := opts + [NewOption(id, optionName)];
    assert NumericIds(r) by {
      forall i | 0 <= i < |r| ensures IsDecimalNumeral(r[i].id) {
        if i < |opts| { assert r[i] == opts[i]; }
      }
    }
    assert UniqueIds(r) by {
      forall i, j | 0 <= i < j < |r| ensures r[i].id != r[j].id {
        assert r[i] == opts[i];
        if j < |opts| { assert r[j] == opts[j]; }
      }
    }
  }
}
