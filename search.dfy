/**
 The vehicle search box: the list of make/model options shipped with the
 page, and the case-insensitive substring filter run on what the user types.
 */
module Search {
  import opened JsString
  import opened PageState

  /** One record of the bundled list of distinct makes and models. */
  datatype MakeModel = MakeModel(make: string, model: string)

  /** An entry of the drop-down. */
  datatype VehicleOption = VehicleOption(make: string, model: string, labelText: string)

  /** `records.map(item => ({make, model, label: make + ' ' + model}))`. */
  function BuildOptions(records: seq<MakeModel>): (options: seq<VehicleOption>)
    ensures |options| == |records|
    ensures forall i :: 0 <= i < |records| ==>
      options[i].make == records[i].make && options[i].model == records[i].model
    ensures forall i :: 0 <= i < |records| ==>
      options[i].labelText == Label(records[i].make, records[i].model)
  {
    seq(|records|, i requires 0 <= i < |records| =>
      VehicleOption(records[i].make, records[i].model, Label(records[i].make, records[i].model)))
  }

  /** The option shown as selected when a link names a make and a model reads
      exactly as the option picked from the list for that vehicle. */
  lemma OptionMatchesLinkedSelection(records: seq<MakeModel>, i: nat, p: UrlParams)
    requires i < |records|
    requires p.make == Some(records[i].make) && p.model == Some(records[i].model)
    requires records[i].make != "" && records[i].model != ""
    ensures BuildOptions(records)[i].make == records[i].make
    ensures BuildOptions(records)[i].model == records[i].model
    ensures InitialState(p).selected
         == Selection(Some(BuildOptions(records)[i].make), Some(BuildOptions(records)[i].model),
                      BuildOptions(records)[i].labelText)
  {
  }

  /** `i.label.toLowerCase().includes(inputValue.toLowerCase())`. */
  predicate Matches(o: VehicleOption, input: string)
  {
    Includes(ToLower(o.labelText), ToLower(input))
  }

  /** `options.filter(...)`: the matching options, in their original order. */
  function FilterMatching(options: seq<VehicleOption>, input: string): (kept: seq<VehicleOption>)
  {
    if options == [] then []
    else (if Matches(options[0], input) then [options[0]] else []) + FilterMatching(options[1..], input)
  }

  /** `filterMakeModel`: nothing is offered until something has been typed. */
  function FilterMakeModel(options: seq<VehicleOption>, inputValue: string): (offered: seq<VehicleOption>)
  {
    if inputValue != "" then FilterMatching(options, inputValue) else []
  }

  /** `a` is `b` with some elements left out, the rest kept in order. */
  predicate IsSubsequence<T(==)>(a: seq<T>, b: seq<T>)
    decreases |b|
  {
    a == [] || (b != [] && ((a[0] == b[0] && IsSubsequence(a[1..], b[1..])) || IsSubsequence(a, b[1..])))
  }

  lemma {:induction false} FilterMatchingSpec(options: seq<VehicleOption>, input: string)
    ensures IsSubsequence(FilterMatching(options, input), options)
    ensures forall o :: o in FilterMatching(options, input) <==> o in options && Matches(o, input)
    ensures forall o :: multiset(FilterMatching(options, input))[o]
                     == if Matches(o, input) then multiset(options)[o] else 0
    decreases |options|
  {
    if options != [] {
      var rest := FilterMatching(options[1..], input);
      FilterMatchingSpec(options[1..], input);
      assert options == [options[0]] + options[1..];
      var r := FilterMatching(options, input);
      if Matches(options[0], input) {
        assert r[0] == options[0] && r[1..] == rest;
      } else {
        assert r == rest;
      }
    }
  }

  /**
   What the drop-down offers: nothing for an empty input; otherwise exactly
   the options whose label contains the input, ignoring case, each as often
   as in the full list and in the list's order.
   */
  lemma FilterMakeModelSpec(options: seq<VehicleOption>, inputValue: string)
    ensures inputValue == "" ==> FilterMakeModel(options, inputValue) == []
    ensures IsSubsequence(FilterMakeModel(options, inputValue), options)
    ensures forall o :: o in FilterMakeModel(options, inputValue)
                    <==> inputValue != "" && o in options && Matches(o, inputValue)
    ensures inputValue != "" ==>
      forall o :: multiset(FilterMakeModel(options, inputValue))[o]
               == if Matches(o, inputValue) then multiset(options)[o] else 0
  {
    FilterMatchingSpec(options, inputValue);
  }

  /** Two inputs that differ only in the case of their letters are offered the same options. */
  lemma FilterIgnoresCase(options: seq<VehicleOption>, a: string, b: string)
    requires ToLower(a) == ToLower(b)
    ensures FilterMakeModel(options, a) == FilterMakeModel(options, b)
  {
    assert |a| == |ToLower(a)| == |b|;
    if a != "" {
      FilterMatchingSame(options, a, b);
    }
  }

  lemma {:induction false} FilterMatchingSame(options: seq<VehicleOption>, a: string, b: string)
    requires ToLower(a) == ToLower(b)
    ensures FilterMatching(options, a) == FilterMatching(options, b)
    decreases |options|
  {
    if options != [] {
      FilterMatchingSame(options[1..], a, b);
    }
  }

  lemma ToLowerAppend(s: string, t: string)
    ensures ToLower(s + t) == ToLower(s) + ToLower(t)
  {
  }

  /** Typing a vehicle's make, in any case, offers every model of that make. */
  lemma MakeFindsItsModels(records: seq<MakeModel>, input: string, i: nat)
    requires i < |records|
    requires input != "" && ToLower(input) == ToLower(records[i].make)
    ensures BuildOptions(records)[i] in FilterMakeModel(BuildOptions(records), input)
  {
    var options := BuildOptions(records);
    var o := options[i];
    ToLowerAppend(records[i].make, " " + records[i].model);
    assert o.labelText == records[i].make + (" " + records[i].model);
    assert StartsWith(ToLower(o.labelText), ToLower(input));
    assert Matches(o, input);
    FilterMakeModelSpec(options, input);
  }
}
