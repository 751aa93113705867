/** The navigation state machine of src/game.ts: `GameState.processOption`
    follows an option's link to a page of the book and notifies the listener. */
module Game {
  import opened Results
  import opened Book

  /** A game variable's value: `string|number`. */
  datatype Value = StrValue(s: string) | NumValue(n: real)

  /** The game state. `onUpdate` tells whether a listener is installed;
      `updates` records, for each call of the listener, the current page it
      was shown. */
  datatype GameState = GameState(
    book: GameBook,
    currentPage: Option<GamePage>,
    state: map<string, Value>,
    onUpdate: bool,
    updates: seq<GamePage>)

  /** The page key `book.pages[opt.link]` looks up: an unset link is the key "undefined". */
  function LinkKey(opt: GameOption): string {
    opt.link.GetOr("undefined")
  }

  /** The state after a call, and the error it threw, if any. */
  datatype Outcome = Outcome(next: GameState, error: Option<Fault>)

  /** `processOption`: move to the linked page and notify the listener once,
      or throw and leave the state as it was. */
  function ProcessOption(gs: GameState, opt: GameOption): (r: Outcome)
    ensures r.error.None? <==> LinkKey(opt) in gs.book.pages
    ensures r.error.Some? ==> r.error.value == UnfollowableLink(LinkKey(opt)) && r.next == gs
    ensures r.next.book == gs.book && r.next.state == gs.state && r.next.onUpdate == gs.onUpdate
    ensures r.error.None? ==> r.next.currentPage == Some(gs.book.pages[LinkKey(opt)])
    ensures r.error.None? && gs.onUpdate ==>
              r.next.updates == gs.updates + [gs.book.pages[LinkKey(opt)]]
    ensures r.error.Some? || !gs.onUpdate ==> r.next.updates == gs.updates
  {
    var key := LinkKey(opt);
    if key !in gs.book.pages then Outcome(gs, Some(UnfollowableLink(key)))
    else
      var moved := gs.(currentPage := Some(gs.book.pages[key]));
      var notified := if moved.onUpdate then moved.(updates := moved.updates + [moved.currentPage.value]) else moved;
      Outcome(notified, None)
  }

  /** The page reached depends on the option and the book only, not on where
      the game was: following the same option twice lands on the same page. */
  lemma ProcessOptionTwice(gs: GameState, opt: GameOption)
    requires LinkKey(opt) in gs.book.pages
    ensures var once := ProcessOption(gs, opt);
            var twice := ProcessOption(once.next, opt);
            && twice.error.None?
            && twice.next.currentPage == once.next.currentPage
            && (gs.onUpdate ==> |twice.next.updates| == |gs.updates| + 2)
  {
  }

  /** Two states over the same book reach the same page by the same option. */
  lemma ProcessOptionForgetsCurrentPage(gs: GameState, gs': GameState, opt: GameOption)
    requires gs.book == gs'.book
    ensures ProcessOption(gs, opt).error == ProcessOption(gs', opt).error
    ensures ProcessOption(gs, opt).error.None? ==>
              ProcessOption(gs, opt).next.currentPage == ProcessOption(gs', opt).next.currentPage
  {
  }

  /** The player's choices taken in order; the first that throws ends the run. */
  function Play(gs: GameState, choices: seq<GameOption>): (r: Outcome)
    ensures r.next.book == gs.book && r.next.state == gs.state
    ensures r.error.None? <==> forall i :: 0 <= i < |choices| ==> LinkKey(choices[i]) in gs.book.pages
    ensures r.error.None? && choices != [] ==>
              r.next.currentPage == Some(gs.book.pages[LinkKey(choices[|choices| - 1])])
    ensures r.error.None? && gs.onUpdate ==> |r.next.updates| == |gs.updates| + |choices|
    ensures !gs.onUpdate ==> r.next.updates == gs.updates
    ensures gs.updates <= r.next.updates
    decreases |choices|
  {
    if choices == [] then Outcome(gs, None)
    else
      var step := ProcessOption(gs, choices[0]);
      if step.error.Some? then step
      else
        var rest := Play(step.next, choices[1..]);
        assert forall i :: 1 <= i < |choices| ==> choices[i] == choices[1..][i - 1];
        rest
  }
}
