/**
 The page's initial state, read from the URL's query parameters, and the
 guard that decides whether the queries are sent at all.
 */
module PageState {
  import opened JsString

  /** The parsed query string; `None` for a parameter that is absent. */
  datatype UrlParams = UrlParams(
    make: Option<string>, model: Option<string>, dataset: Option<string>,
    myMin: Option<string>, myMax: Option<string>)

  /** The selected vehicle; `None` stands for `null`. */
  datatype Selection = Selection(make: Option<string>, model: Option<string>, labelText: string)

  /** The state the page starts from. */
  datatype InitialView = InitialView(dataset: string, selected: Selection, myMin: string, myMax: string)

  const DefaultDataset: string := "2024"
  const Placeholder: string := "Search Vehicles"

  /** JavaScript truthiness of a string that may be null: present and non-empty. */
  predicate Truthy(s: Option<string>)
  {
    s.Some? && s.value != ""
  }

  /** `s ?? fallback`: only a missing value falls back; an empty string is kept. */
  function OrElse(s: Option<string>, fallback: string): (v: string)
  {
    match s
    case Some(v) => v
    case None => fallback
  }

  /** The label an option shows: make and model separated by one space. */
  function Label(make: string, model: string): (text: string)
  {
    make + " " + model
  }

  /** `selectedOption.make && selectedOption.model`: the queries run only then. */
  predicate CanQuery(sel: Selection)
  {
    Truthy(sel.make) && Truthy(sel.model)
  }

  /** The `useState` initialisers. */
  function InitialState(p: UrlParams): (view: InitialView)
  {
    InitialView(
      OrElse(p.dataset, DefaultDataset),
      Selection(p.make, p.model,
                if Truthy(p.make) && Truthy(p.model) then Label(p.make.value, p.model.value) else Placeholder),
      OrElse(p.myMin, ""),
      OrElse(p.myMax, ""))
  }

  /** A link carrying both a make and a model opens with that vehicle selected,
      labelled as its option is, and queried straight away; otherwise the page
      shows the placeholder and sends nothing. */
  lemma InitialSelection(p: UrlParams)
    ensures CanQuery(InitialState(p).selected) <==> Truthy(p.make) && Truthy(p.model)
    ensures CanQuery(InitialState(p).selected) ==>
      InitialState(p).selected.labelText == Label(p.make.value, p.model.value)
    ensures !CanQuery(InitialState(p).selected) ==> InitialState(p).selected.labelText == Placeholder
    ensures InitialState(p).selected.make == p.make && InitialState(p).selected.model == p.model
  {
  }

  /** Missing parameters fall back to dataset 2024 and empty year filters;
      parameters that are present are taken as they are. */
  lemma InitialDefaults(p: UrlParams)
    ensures p.dataset.None? ==> InitialState(p).dataset == "2024"
    ensures p.dataset.Some? ==> InitialState(p).dataset == p.dataset.value
    ensures InitialState(p).myMin == (if p.myMin.Some? then p.myMin.value else "")
    ensures InitialState(p).myMax == (if p.myMax.Some? then p.myMax.value else "")
  {
  }
}
