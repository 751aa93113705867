/** Failure-carrying wrappers shared by the loader and the game state machine.
    The source reports every failure by throwing an `Error` with a message; the
    model names each message as one `Fault`. */
module Results {

  /** A JavaScript value that may be `undefined`. */
  datatype Option<+T> = None | Some(value: T) {
    function GetOr(default: T): T {
      match this
      case Some(v) => v
      case None => default
    }
  }

  /** The reasons the loader and the game throw. */
  datatype Fault =
    | UnparsableEffect(cell: string)     // "Could not parse effect: <cell>"
    | MissingPageText(pageId: string)    // "Can't find page text"
    | NoStartPage                        // "No page with Start attribute"
    | SeveralStartPages                  // "More than one page with start attribute"
    | UnfollowableLink(link: string)     // "Cannot follow link <link>"

  datatype Result<+T> = Ok(value: T) | Err(fault: Fault) {
    predicate IsFailure() {
      Err?
    }

    function PropagateFailure<U>(): Result<U>
      requires Err?
    {
      Err(fault)
    }

    function Extract(): T
      requires Ok?
    {
      value
    }
  }

  /** Applies `f` to every element in order, stopping at the first failure. */
  function MapAll<T, U>(xs: seq<T>, f: T -> Result<U>): (r: Result<seq<U>>)
    ensures r.Ok? <==> forall i :: 0 <= i < |xs| ==> f(xs[i]).Ok?
    ensures r.Ok? ==> |r.value| == |xs|
    ensures r.Ok? ==> forall i :: 0 <= i < |xs| ==> r.value[i] == f(xs[i]).value
    ensures r.Err? ==> exists i :: 0 <= i < |xs| && f(xs[i]) == Err(r.fault) && forall j :: 0 <= j < i ==> f(xs[j]).Ok?
  {
    if xs == [] then Ok([])
    else
      var init := xs[..|xs| - 1];
      assert forall i :: 0 <= i < |init| ==> init[i] == xs[i];
      var us :- MapAll(init, f);
      var u :- f(xs[|xs| - 1]);
      Ok(us + [u])
  }
}
