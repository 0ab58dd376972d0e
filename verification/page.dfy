/** The state of the Detection page and how `handleImageUpload` changes it.

    The page keeps four state variables: the preview URL of the chosen image,
    a loading flag, an error message and the diagnosis data. One upload is a
    change event followed, once the request to the relay settles, by a
    settlement. Only sequential traces are modelled: a new file is chosen only
    when no request is in flight. */
module Page {
  import opened Wrappers

  /** The diagnosis the page expects from the relay, typed as the page declares it. */
  datatype DiseaseData = DiseaseData(
    diseaseName: string,
    confidence: string,
    symptoms: seq<string>,
    causes: seq<string>,
    treatments: seq<string>,
    preventiveMeasures: seq<string>)

  /** The page's four state variables. */
  datatype PageState = PageState(
    preview: Option<string>,
    loading: bool,
    error: Option<string>,
    data: Option<DiseaseData>)

  /** The state before any interaction: nothing chosen, nothing loading. */
  const Initial: PageState := PageState(None, false, None, None)

  /** The one message the page shows for every kind of failure. */
  const FailureMessage: string := "Failed to analyze image. Please try again."

  /** How the request to the relay settled: the fetch itself rejected, or a
      response arrived with its `ok` flag and its body read as JSON (None when
      reading the body threw). */
  datatype Settlement =
    | NetworkFailure
    | Answered(ok: bool, body: Option<DiseaseData>)

  /** The settlements that reach `setDiseaseData`: an ok response whose body parsed. */
  predicate Succeeded(o: Settlement)
  {
    o.Answered? && o.ok && o.body.Some?
  }

  /** The events the page reacts to: a change of the file input, carrying the
      object URL of its first file if there is one, and a settled request. */
  datatype Event = Changed(objectUrl: Option<string>) | Settled(outcome: Settlement)

  /** The synchronous part of `handleImageUpload`, up to sending the request. */
  function Choose(s: PageState, objectUrl: Option<string>): (t: PageState)
    ensures objectUrl.None? ==> t == s
    ensures objectUrl.Some? ==> t.preview == objectUrl && t.loading && t.error.None? && t.data.None?
  {
    match objectUrl
    case None => s
    case Some(u) => PageState(Some(u), true, None, None)
  }

  /** The part of `handleImageUpload` after the request settles: the try,
      catch and finally blocks. */
  function Settle(s: PageState, o: Settlement): (t: PageState)
    ensures !t.loading && t.preview == s.preview
    ensures Succeeded(o) ==> t.data == o.body && t.error == s.error
    ensures !Succeeded(o) ==> t.error == Some(FailureMessage) && t.data == s.data
  {
    if Succeeded(o) then s.(data := o.body, loading := false)
    else s.(error := Some(FailureMessage), loading := false)
  }

  /** The state after one event. */
  function Step(s: PageState, e: Event): PageState
  {
    match e
    case Changed(u) => Choose(s, u)
    case Settled(o) => Settle(s, o)
  }

  /** A whole upload: a file is chosen, then its request settles. Afterwards
      nothing is loading and exactly one of error and data is set, whatever
      the state was before. */
  function Upload(s: PageState, objectUrl: string, o: Settlement): (t: PageState)
    ensures t.preview == Some(objectUrl) && !t.loading
    ensures t.error.Some? != t.data.Some?
    ensures t.data.Some? <==> Succeeded(o)
    ensures Succeeded(o) ==> t.data == o.body
    ensures !Succeeded(o) ==> t.error == Some(FailureMessage)
  {
    Settle(Choose(s, Some(objectUrl)), o)
  }

  /** The state after a sequence of events. */
  function Run(s: PageState, es: seq<Event>): PageState
    decreases |es|
  {
    if es == [] then s else Run(Step(s, es[0]), es[1..])
  }

  /** An event that fits a sequential trace: a file is chosen only when no
      request is in flight (and object URLs are never empty), and a request
      settles only while one is in flight. */
  predicate InTurn(s: PageState, e: Event)
  {
    match e
    case Changed(None) => true
    case Changed(Some(u)) => !s.loading && u != ""
    case Settled(_) => s.loading
  }

  /** Every event of `es` is in turn in the state it is applied to. */
  predicate Sequential(s: PageState, es: seq<Event>)
    decreases |es|
  {
    es == [] || (InTurn(s, es[0]) && Sequential(Step(s, es[0]), es[1..]))
  }

  /** The states a sequential trace from `Initial` can reach: the initial
      state, a request in flight for a chosen image, or a settled upload that
      left exactly one of error and data set. */
  predicate Consistent(s: PageState)
  {
    || s == Initial
    || (&& s.preview.Some? && s.preview.value != ""
        && (s.error.Some? ==> s.error.value == FailureMessage)
        && (if s.loading then s.error.None? && s.data.None? else s.error.Some? != s.data.Some?))
  }

  /** One event in turn keeps the page consistent. */
  lemma StepKeepsConsistent(s: PageState, e: Event)
    requires Consistent(s) && InTurn(s, e)
    ensures Consistent(Step(s, e))
  {
  }

  /** Every sequential trace keeps the page consistent. */
  lemma {:induction false} SequentialRunKeepsConsistent(s: PageState, es: seq<Event>)
    requires Consistent(s) && Sequential(s, es)
    ensures Consistent(Run(s, es))
    decreases |es|
  {
    if es != [] {
      StepKeepsConsistent(s, es[0]);
      SequentialRunKeepsConsistent(Step(s, es[0]), es[1..]);
    }
  }

  /** In a consistent state with nothing in flight, either nothing was ever
      chosen or exactly one of error and data is set. */
  lemma SettledStateHasOneResult(s: PageState)
    requires Consistent(s) && !s.loading && s != Initial
    ensures s.error.Some? != s.data.Some?
  {
  }
}
