/** Reading directive cells: `parseEffect` and the option/page attribute
    routers of the sheet loader (src/sheetsloader.ts). Each works on a cell
    already destructured into keyword and arguments (`Text.Destructure`). */
module Directives {
  import opened Results
  import opened Text
  import opened Book

  /** `args[i]`, or `undefined` past the last argument. */
  function Arg(p: Parts, i: nat): Option<string> {
    if i < |p.args| then Some(p.args[i]) else None
  }

  /** The effect fields a directive can set. */
  datatype Field = GotoField | DebugField | StateField | TimeField | StressScaleField | StressField

  /** The effect keywords `parseEffect` recognises, and the one field each sets. */
  function FieldOf(keyword: string): Option<Field> {
    if keyword == "GOTO" then Some(GotoField)
    else if keyword == "DEBUG" then Some(DebugField)
    else if keyword == "SET" then Some(StateField)
    else if keyword == "TIME" then Some(TimeField)
    else if keyword == "STRESS_SCALE" then Some(StressScaleField)
    else if keyword == "STRESS" then Some(StressField)
    else None
  }

  /** The fields of `e` that differ from a fresh effect. */
  function ChangedFields(e: GameEffect): set<Field> {
    (if e.goto.Some? then {GotoField} else {})
    + (if e.debug.Some? then {DebugField} else {})
    + (if e.state != map[] then {StateField} else {})
    + (if e.time.Some? then {TimeField} else {})
    + (if e.stress_scale.Some? then {StressScaleField} else {})
    + (if e.stress.Some? then {StressField} else {})
  }

  /** A JavaScript property key: `undefined` is written as the key "undefined". */
  function KeyName(arg: Option<string>): string {
    arg.GetOr("undefined")
  }

  /** `parseFloat(arg)`; `parseFloat(undefined)` is NaN. */
  function ReadFloat(num: NumberReader, arg: Option<string>): Number {
    match arg
    case None => NaN
    case Some(s) => num.parseFloat(s)
  }

  /** `parseInt(arg, 10)`; a missing or unparsable argument is NaN. */
  function ReadInt(num: NumberReader, arg: Option<string>): (r: Number)
    ensures r.Num? ==> r.value == r.value.Floor as real
  {
    match arg
    case None => NaN
    case Some(s) =>
      match num.parseInt(s)
      case None => NaN
      case Some(i) => Num(i as real)
  }

  /** `parseEffect`: a fresh effect with the keyword's one field set from its
      arguments, or a failure naming the cell. */
  function ParseEffect(p: Parts, num: NumberReader): (r: Result<GameEffect>)
    ensures r.Ok? <==> FieldOf(p.keyword).Some?
    ensures r.Err? ==> r.fault == UnparsableEffect(p.cell)
  {
    if p.keyword == "GOTO" then Ok(FreshEffect.(goto := Arg(p, 0)))
    else if p.keyword == "DEBUG" then Ok(FreshEffect.(debug := Arg(p, 0)))
    else if p.keyword == "SET" then Ok(FreshEffect.(state := map[KeyName(Arg(p, 0)) := Arg(p, 1)]))
    else if p.keyword == "TIME" then Ok(FreshEffect.(time := Some(Millis(ReadFloat(num, Arg(p, 0))))))
    else if p.keyword == "STRESS_SCALE" then
      Ok(FreshEffect.(stress_scale := Some(Millis(ReadFloat(num, Arg(p, 0))))))
    else if p.keyword == "STRESS" then Ok(FreshEffect.(stress := Some(ReadInt(num, Arg(p, 0)))))
    else Err(UnparsableEffect(p.cell))
  }

  /** A recognised keyword changes its own field of a fresh effect and no other;
      it always does, unless it is GOTO or DEBUG without an argument. */
  lemma ParseEffectSetsOneField(p: Parts, num: NumberReader)
    requires ParseEffect(p, num).Ok?
    ensures ChangedFields(ParseEffect(p, num).value) <= {FieldOf(p.keyword).value}
    ensures Arg(p, 0).Some? || (p.keyword != "GOTO" && p.keyword != "DEBUG")
            ==> FieldOf(p.keyword).value in ChangedFields(ParseEffect(p, num).value)
  {
    if p.keyword == "SET" {
      assert KeyName(Arg(p, 0)) in ParseEffect(p, num).value.state;
    }
  }

  /** The value each keyword stores: GOTO and DEBUG keep the first argument
      only, SET stores its second argument under its first, TIME and
      STRESS_SCALE convert seconds to milliseconds, STRESS stores an integer. */
  lemma ParseEffectValues(p: Parts, num: NumberReader)
    ensures p.keyword == "GOTO" ==> ParseEffect(p, num).value.goto == Arg(p, 0)
    ensures p.keyword == "DEBUG" ==> ParseEffect(p, num).value.debug == Arg(p, 0)
    ensures p.keyword == "SET" ==> ParseEffect(p, num).value.state == map[KeyName(Arg(p, 0)) := Arg(p, 1)]
    ensures p.keyword == "TIME" ==>
              ParseEffect(p, num).value.time == Some(Millis(ReadFloat(num, Arg(p, 0))))
    ensures p.keyword == "STRESS_SCALE" ==>
              ParseEffect(p, num).value.stress_scale == Some(Millis(ReadFloat(num, Arg(p, 0))))
    ensures p.keyword == "STRESS" ==> ParseEffect(p, num).value.stress == Some(ReadInt(num, Arg(p, 0)))
  {
  }

  /** Only the arguments a keyword uses matter: the first, and for SET also the
      second. Cells that agree on those parse to the same effect. */
  lemma ExtraArgumentsIgnored(p: Parts, q: Parts, num: NumberReader)
    requires p.keyword == q.keyword && Arg(p, 0) == Arg(q, 0)
    requires p.keyword == "SET" ==> Arg(p, 1) == Arg(q, 1)
    ensures ParseEffect(p, num).Ok? ==> ParseEffect(q, num) == ParseEffect(p, num)
  {
  }

  /** A blank cell has the empty keyword, which no directive uses. */
  lemma BlankCellIsNoEffect(cell: string, num: NumberReader)
    requires AllSpace(cell)
    ensures ParseEffect(Destructure(cell), num) == Err(UnparsableEffect(cell))
  {
    DestructureBlank(cell);
  }

  // ---------------------------------------------------------------------------
  // Authoring a cell and reading it back

  /** A directive as an author writes it, its arguments as tokens. */
  datatype Directive =
    | Goto(target: string, extra: seq<string>)
    | Debug(message: string, extra: seq<string>)
    | Set(key: string, value: string, extra: seq<string>)
    | Time(seconds: string, extra: seq<string>)
    | StressScale(seconds: string, extra: seq<string>)
    | Stress(amount: string, extra: seq<string>)

  function Tokens(d: Directive): seq<string> {
    match d
    case Goto(t, x) => ["GOTO", t] + x
    case Debug(m, x) => ["DEBUG", m] + x
    case Set(k, v, x) => ["SET", k, v] + x
    case Time(s, x) => ["TIME", s] + x
    case StressScale(s, x) => ["STRESS_SCALE", s] + x
    case Stress(a, x) => ["STRESS", a] + x
  }

  /** Every argument is a single white-space-free token. */
  predicate WellFormed(d: Directive) {
    forall i :: 1 <= i < |Tokens(d)| ==> IsToken(Tokens(d)[i])
  }

  /** The cell text of a directive, its tokens parted by the given runs of
      white space. */
  function Render(d: Directive, seps: seq<string>): string
    requires |seps| == |Tokens(d)| - 1
  {
    JoinWith(Tokens(d), seps)
  }

  /** What a directive means: the effect it denotes. */
  function Meaning(d: Directive, num: NumberReader): GameEffect {
    match d
    case Goto(t, _) => FreshEffect.(goto := Some(t))
    case Debug(m, _) => FreshEffect.(debug := Some(m))
    case Set(k, v, _) => FreshEffect.(state := map[k := Some(v)])
    case Time(s, _) => FreshEffect.(time := Some(Millis(num.parseFloat(s))))
    case StressScale(s, _) => FreshEffect.(stress_scale := Some(Millis(num.parseFloat(s))))
    case Stress(a, _) => FreshEffect.(stress := Some(ReadInt(num, Some(a))))
  }

  /** The keyword and arguments of a directive determine its effect. */
  lemma ParseTokens(d: Directive, p: Parts, num: NumberReader)
    requires [p.keyword] + p.args == Tokens(d)
    ensures ParseEffect(p, num) == Ok(Meaning(d, num))
  {
    var ts := Tokens(d);
    assert p.keyword == ([p.keyword] + p.args)[0];
    assert p.args == ([p.keyword] + p.args)[1..];
    assert Arg(p, 0) == Some(ts[1]);
    match d
    case Goto(_, _) => assert p.keyword == "GOTO";
    case Debug(_, _) => assert p.keyword == "DEBUG";
    case Set(_, v, _) => assert p.keyword == "SET" && Arg(p, 1) == Some(v);
    case Time(_, _) => assert p.keyword == "TIME";
    case StressScale(_, _) => assert p.keyword == "STRESS_SCALE";
    case Stress(_, _) => assert p.keyword == "STRESS";
  }

  /** A written directive, its tokens parted by any white-space runs and
      padded with any white space, parses back to its meaning; arguments past
      the ones the keyword uses are ignored. */
  lemma ParseRender(d: Directive, seps: seq<string>, num: NumberReader, before: string, after: string)
    requires WellFormed(d)
    requires |seps| == |Tokens(d)| - 1 && forall i :: 0 <= i < |seps| ==> IsSeparator(seps[i])
    requires AllSpace(before) && AllSpace(after)
    ensures ParseEffect(Destructure(before + Render(d, seps) + after), num) == Ok(Meaning(d, num))
  {
    var p := Destructure(before + Render(d, seps) + after);
    RenderDestructures(d, seps, before, after);
    ParseTokens(d, p, num);
  }

  /** The written text of a directive reads back as its tokens. */
  lemma RenderDestructures(d: Directive, seps: seq<string>, before: string, after: string)
    requires WellFormed(d)
    requires |seps| == |Tokens(d)| - 1 && forall i :: 0 <= i < |seps| ==> IsSeparator(seps[i])
    requires AllSpace(before) && AllSpace(after)
    ensures var p := Destructure(before + Render(d, seps) + after);
            [p.keyword] + p.args == Tokens(d)
  {
    DirectiveSeparated(d, seps);
    DestructureJoin(before, Tokens(d), seps, after);
  }

  lemma DirectiveSeparated(d: Directive, seps: seq<string>)
    requires WellFormed(d)
    requires |seps| == |Tokens(d)| - 1 && forall i :: 0 <= i < |seps| ==> IsSeparator(seps[i])
    ensures Separated(Tokens(d), seps)
  {
    KeywordIsToken(d);
  }

  lemma KeywordIsToken(d: Directive)
    ensures IsToken(Tokens(d)[0])
  {
    var keyword := Tokens(d)[0];
    assert IsVisibleAscii(keyword) by {
      match d
      case Goto(_, _) =>
      case Debug(_, _) =>
      case Set(_, _, _) =>
      case Time(_, _) =>
      case StressScale(_, _) =>
      case Stress(_, _) =>
    }
    VisibleAsciiIsToken(keyword);
  }

  // ---------------------------------------------------------------------------
  // Attribute cells of options and pages

  /** Whether attribute cells belong to an option row or to a page row. */
  datatype Holder = OptionRow | PageRow

  /** The keywords the attribute routers handle themselves instead of passing
      the cell on to `parseEffect`. */
  predicate IsFlag(holder: Holder, keyword: string) {
    match holder
    case OptionRow => keyword == "IF" || keyword == "DEFAULT" || keyword == "SHOWIF"
    case PageRow => keyword == "START" || keyword == "UNTIMED"
  }

  /** The cells, in order, that are not flags and so become effects. */
  function EffectCells(cells: seq<Parts>, holder: Holder): (r: seq<Parts>)
    ensures forall i :: 0 <= i < |r| ==> !IsFlag(holder, r[i].keyword)
  {
    if cells == [] then []
    else
      var init := EffectCells(cells[..|cells| - 1], holder);
      var last := cells[|cells| - 1];
      if IsFlag(holder, last.keyword) then init else init + [last]
  }

  /** Parses every cell in order; fails with the first cell that does not parse. */
  function ParseEffects(cells: seq<Parts>, num: NumberReader): Result<seq<GameEffect>> {
    MapAll(cells, p => ParseEffect(p, num))
  }

  /** The effects of the attribute cells: those cells that are not flags, parsed
      in cell order. */
  function EffectsOf(cells: seq<Parts>, holder: Holder, num: NumberReader): Result<seq<GameEffect>> {
    ParseEffects(EffectCells(cells, holder), num)
  }

  lemma EffectsOfSnoc(cells: seq<Parts>, holder: Holder, num: NumberReader)
    requires cells != []
    ensures var init := cells[..|cells| - 1];
            var last := cells[|cells| - 1];
            EffectsOf(cells, holder, num) ==
              if IsFlag(holder, last.keyword) then EffectsOf(init, holder, num)
              else match EffectsOf(init, holder, num)
                case Err(f) => Err(f)
                case Ok(es) =>
                  match ParseEffect(last, num)
                  case Err(f) => Err(f)
                  case Ok(e) => Ok(es + [e])
  {
    var init := cells[..|cells| - 1];
    var last := cells[|cells| - 1];
    if !IsFlag(holder, last.keyword) {
      var ec := EffectCells(init, holder) + [last];
      assert EffectCells(cells, holder) == ec;
      assert ec[..|ec| - 1] == EffectCells(init, holder);
    }
  }

  /** A cell an attribute router accepts: a flag, or a known effect keyword. */
  predicate Accepted(holder: Holder, p: Parts) {
    IsFlag(holder, p.keyword) || FieldOf(p.keyword).Some?
  }

  /** The attribute cells have effects exactly when every cell is accepted. */
  lemma {:induction false} EffectsOfOk(cells: seq<Parts>, holder: Holder, num: NumberReader)
    ensures EffectsOf(cells, holder, num).Ok? <==> forall i :: 0 <= i < |cells| ==> Accepted(holder, cells[i])
  {
    if cells != [] {
      var init := cells[..|cells| - 1];
      EffectsOfSnoc(cells, holder, num);
      EffectsOfOk(init, holder, num);
      assert forall i :: 0 <= i < |init| ==> init[i] == cells[i];
    }
  }

  lemma EffectsOfSnocErr(cells: seq<Parts>, holder: Holder, num: NumberReader)
    requires EffectsOf(cells, holder, num).Err?
    ensures cells != []
    ensures var init := cells[..|cells| - 1];
            var fault := EffectsOf(cells, holder, num).fault;
            if EffectsOf(init, holder, num).Err? then fault == EffectsOf(init, holder, num).fault
            else !Accepted(holder, cells[|cells| - 1]) && fault == UnparsableEffect(cells[|cells| - 1].cell)
  {
    EffectsOfSnoc(cells, holder, num);
  }

  /** When the attribute cells fail, the error names the first cell, in cell
      order, that is neither a flag nor a known effect. */
  lemma {:induction false} EffectsOfFault(cells: seq<Parts>, holder: Holder, num: NumberReader)
    requires EffectsOf(cells, holder, num).Err?
    ensures exists i :: 0 <= i < |cells| && !Accepted(holder, cells[i])
              && EffectsOf(cells, holder, num).fault == UnparsableEffect(cells[i].cell)
              && forall j :: 0 <= j < i ==> Accepted(holder, cells[j])
  {
    var init := cells[..|cells| - 1];
    EffectsOfSnocErr(cells, holder, num);
    assert forall i :: 0 <= i < |init| ==> init[i] == cells[i];
    if EffectsOf(init, holder, num).Err? {
      EffectsOfFault(init, holder, num);
      var i :| 0 <= i < |init| && !Accepted(holder, init[i])
               && EffectsOf(init, holder, num).fault == UnparsableEffect(init[i].cell)
               && forall j :: 0 <= j < i ==> Accepted(holder, init[j]);
      assert !Accepted(holder, cells[i]);
    } else {
      EffectsOfOk(init, holder, num);
      assert !Accepted(holder, cells[|cells| - 1]);
    }
  }

  /** `parseAndApplyOptionAttribute`. */
  function ApplyOptionAttribute(opt: GameOption, p: Parts, num: NumberReader): (r: Result<GameOption>)
    ensures IsFlag(OptionRow, p.keyword) ==> r.Ok?
    ensures !IsFlag(OptionRow, p.keyword) ==> (r.Ok? <==> ParseEffect(p, num).Ok?)
    ensures r.Err? ==> r.fault == UnparsableEffect(p.cell)
    ensures r.Ok? ==> r.value.text == opt.text && r.value.link == opt.link
    ensures r.Ok? ==> (r.value.default <==> opt.default || p.keyword == "DEFAULT")
    ensures r.Ok? && p.keyword != "IF" ==> r.value.cond == opt.cond
    ensures r.Ok? && p.keyword != "SHOWIF" ==> r.value.showCond == opt.showCond
    ensures p.keyword == "IF" ==> r.Ok? && r.value.cond == opt.cond[KeyName(Arg(p, 0)) := Arg(p, 1)]
    ensures p.keyword == "SHOWIF" ==>
              r.Ok? && r.value.showCond == opt.showCond[KeyName(Arg(p, 0)) := Arg(p, 1)]
    ensures IsFlag(OptionRow, p.keyword) ==> r.Ok? && r.value.effects == opt.effects
    ensures !IsFlag(OptionRow, p.keyword) && r.Ok? ==>
              r.value.effects == opt.effects + [ParseEffect(p, num).value]
  {
    if p.keyword == "IF" then Ok(opt.(cond := opt.cond[KeyName(Arg(p, 0)) := Arg(p, 1)]))
    else if p.keyword == "DEFAULT" then Ok(opt.(default := true))
    else if p.keyword == "SHOWIF" then Ok(opt.(showCond := opt.showCond[KeyName(Arg(p, 0)) := Arg(p, 1)]))
    else
      var effect :- ParseEffect(p, num);
      Ok(opt.(effects := opt.effects + [effect]))
  }

  /** `parseAndApplyPageAttribute`. */
  function ApplyPageAttribute(page: GamePage, p: Parts, num: NumberReader): (r: Result<GamePage>)
    ensures IsFlag(PageRow, p.keyword) ==> r.Ok?
    ensures !IsFlag(PageRow, p.keyword) ==> (r.Ok? <==> ParseEffect(p, num).Ok?)
    ensures r.Err? ==> r.fault == UnparsableEffect(p.cell)
    ensures r.Ok? ==> r.value.text == page.text && r.value.prefix == page.prefix
    ensures r.Ok? ==> r.value.options == page.options
    ensures r.Ok? ==> (r.value.start <==> page.start || p.keyword == "START")
    ensures r.Ok? ==> (r.value.untimed <==> page.untimed || p.keyword == "UNTIMED")
    ensures IsFlag(PageRow, p.keyword) ==> r.Ok? && r.value.effects == page.effects
    ensures !IsFlag(PageRow, p.keyword) && r.Ok? ==>
              r.value.effects == page.effects + [ParseEffect(p, num).value]
  {
    if p.keyword == "START" then Ok(page.(start := true))
    else if p.keyword == "UNTIMED" then Ok(page.(untimed := true))
    else
      var effect :- ParseEffect(p, num);
      Ok(page.(effects := page.effects + [effect]))
  }

  /** Some cell of `cells` has the keyword `keyword`. */
  predicate HasKeyword(cells: seq<Parts>, keyword: string) {
    exists i :: 0 <= i < |cells| && cells[i].keyword == keyword
  }

  lemma HasKeywordSnoc(cells: seq<Parts>, keyword: string)
    requires cells != []
    ensures HasKeyword(cells, keyword) <==>
            HasKeyword(cells[..|cells| - 1], keyword) || cells[|cells| - 1].keyword == keyword
  {
    var init := cells[..|cells| - 1];
    if HasKeyword(cells, keyword) {
      var i :| 0 <= i < |cells| && cells[i].keyword == keyword;
      if i < |init| {
        assert init[i] == cells[i];
      }
    }
    if HasKeyword(init, keyword) {
      var i :| 0 <= i < |init| && init[i].keyword == keyword;
      assert cells[i] == init[i];
    }
  }

  /** The attribute cells of an option row, applied left to right: fails
      exactly when an effect cell does not parse, and otherwise appends the
      effects of the non-flag cells in cell order. */
  function ApplyOptionAttributes(opt: GameOption, cells: seq<Parts>, num: NumberReader): (r: Result<GameOption>)
    ensures r.Ok? <==> EffectsOf(cells, OptionRow, num).Ok?
    ensures r.Ok? ==> r.value.effects == opt.effects + EffectsOf(cells, OptionRow, num).value
    ensures r.Err? ==> r.fault == EffectsOf(cells, OptionRow, num).fault
  {
    if cells == [] then Ok(opt)
    else
      var init := cells[..|cells| - 1];
      var last := cells[|cells| - 1];
      EffectsOfSnoc(cells, OptionRow, num);
      var o :- ApplyOptionAttributes(opt, init, num);
      ApplyOptionAttribute(o, last, num)
  }

  /** One step of the fold: the last cell applied to the result of the others. */
  lemma ApplyOptionAttributesSnoc(opt: GameOption, cells: seq<Parts>, num: NumberReader)
    requires ApplyOptionAttributes(opt, cells, num).Ok?
    ensures cells != [] ==>
              var o := ApplyOptionAttributes(opt, cells[..|cells| - 1], num);
              && o.Ok?
              && ApplyOptionAttributes(opt, cells, num) == ApplyOptionAttribute(o.value, cells[|cells| - 1], num)
  {
  }

  /** The flag cells of an option row: DEFAULT anywhere makes it the default
      option, the text and link are never touched, and the condition maps
      change only when an IF or SHOWIF cell is present. */
  lemma {:induction false} OptionAttributesFlags(opt: GameOption, cells: seq<Parts>, num: NumberReader)
    requires ApplyOptionAttributes(opt, cells, num).Ok?
    ensures var o := ApplyOptionAttributes(opt, cells, num).value;
            && (o.default <==> opt.default || HasKeyword(cells, "DEFAULT"))
            && o.text == opt.text && o.link == opt.link
            && (!HasKeyword(cells, "IF") ==> o.cond == opt.cond)
            && (!HasKeyword(cells, "SHOWIF") ==> o.showCond == opt.showCond)
  {
    if cells != [] {
      var init := cells[..|cells| - 1];
      HasKeywordSnoc(cells, "DEFAULT");
      HasKeywordSnoc(cells, "IF");
      HasKeywordSnoc(cells, "SHOWIF");
      OptionAttributesFlags(opt, init, num);
    }
  }

  /** The attribute cells of a page row, applied left to right: fails exactly
      when an effect cell does not parse, and otherwise appends the effects of
      the non-flag cells in cell order. */
  function ApplyPageAttributes(page: GamePage, cells: seq<Parts>, num: NumberReader): (r: Result<GamePage>)
    ensures r.Ok? <==> EffectsOf(cells, PageRow, num).Ok?
    ensures r.Ok? ==> r.value.effects == page.effects + EffectsOf(cells, PageRow, num).value
    ensures r.Err? ==> r.fault == EffectsOf(cells, PageRow, num).fault
  {
    if cells == [] then Ok(page)
    else
      var init := cells[..|cells| - 1];
      var last := cells[|cells| - 1];
      EffectsOfSnoc(cells, PageRow, num);
      var p :- ApplyPageAttributes(page, init, num);
      ApplyPageAttribute(p, last, num)
  }

  /** The flag cells of a page row: START and UNTIMED anywhere set their flags,
      and the text, prefix and options are never touched. */
  lemma {:induction false} PageAttributesFlags(page: GamePage, cells: seq<Parts>, num: NumberReader)
    requires ApplyPageAttributes(page, cells, num).Ok?
    ensures var p := ApplyPageAttributes(page, cells, num).value;
            && (p.start <==> page.start || HasKeyword(cells, "START"))
            && (p.untimed <==> page.untimed || HasKeyword(cells, "UNTIMED"))
            && p.text == page.text && p.prefix == page.prefix && p.options == page.options
  {
    if cells != [] {
      var init := cells[..|cells| - 1];
      HasKeywordSnoc(cells, "START");
      HasKeywordSnoc(cells, "UNTIMED");
      PageAttributesFlags(page, init, num);
    }
  }

  /** The condition map an `IF` (lock) or `SHOWIF` (visibility) cell writes. */
  function ConditionsOf(opt: GameOption, keyword: string): Conditions
    requires keyword == "IF" || keyword == "SHOWIF"
  {
    if keyword == "IF" then opt.cond else opt.showCond
  }

  /** One more attribute cell keeps a condition entry unless it writes the same
      key into the same map. */
  lemma ConditionSurvives(o: GameOption, p: Parts, num: NumberReader, keyword: string, key: string)
    requires keyword == "IF" || keyword == "SHOWIF"
    requires ApplyOptionAttribute(o, p, num).Ok?
    requires key in ConditionsOf(o, keyword)
    requires p.keyword == keyword ==> KeyName(Arg(p, 0)) != key
    ensures var conds := ConditionsOf(ApplyOptionAttribute(o, p, num).value, keyword);
            key in conds && conds[key] == ConditionsOf(o, keyword)[key]
  {
  }

  /** An `IF` or `SHOWIF` cell writes its value under its key. */
  lemma ConditionWritten(o: GameOption, p: Parts, num: NumberReader)
    requires p.keyword == "IF" || p.keyword == "SHOWIF"
    ensures var conds := ConditionsOf(ApplyOptionAttribute(o, p, num).value, p.keyword);
            KeyName(Arg(p, 0)) in conds && conds[KeyName(Arg(p, 0))] == Arg(p, 1)
  {
  }

  /** For each key, the last `IF` (or `SHOWIF`) cell naming it decides the
      required value: when no later cell of the same keyword writes the same
      key, the cell's value is the one left in the map. */
  lemma {:induction false} LastConditionWins(opt: GameOption, before: seq<Parts>, c: Parts, after: seq<Parts>, num: NumberReader)
    requires ApplyOptionAttributes(opt, before + [c] + after, num).Ok?
    requires c.keyword == "IF" || c.keyword == "SHOWIF"
    requires forall q :: q in after && q.keyword == c.keyword ==> KeyName(Arg(q, 0)) != KeyName(Arg(c, 0))
    ensures var conds := ConditionsOf(ApplyOptionAttributes(opt, before + [c] + after, num).value, c.keyword);
            KeyName(Arg(c, 0)) in conds && conds[KeyName(Arg(c, 0))] == Arg(c, 1)
    decreases |after|
  {
    var cells := before + [c] + after;
    ApplyOptionAttributesSnoc(opt, cells, num);
    var o := ApplyOptionAttributes(opt, cells[..|cells| - 1], num);
    if after == [] {
      assert cells[..|cells| - 1] == before && cells[|cells| - 1] == c;
      ConditionWritten(o.value, c, num);
    } else {
      var after' := after[..|after| - 1];
      var last := after[|after| - 1];
      assert cells[..|cells| - 1] == before + [c] + after' && cells[|cells| - 1] == last;
      LastConditionWins(opt, before, c, after', num);
      ConditionSurvives(o.value, last, num, c.keyword, KeyName(Arg(c, 0)));
    }
  }

  /** One attribute cell that does not write `key` into the map leaves the
      key's presence and value as they were. */
  lemma ConditionKept(o: GameOption, p: Parts, num: NumberReader, keyword: string, key: string)
    requires keyword == "IF" || keyword == "SHOWIF"
    requires ApplyOptionAttribute(o, p, num).Ok?
    requires p.keyword == keyword ==> KeyName(Arg(p, 0)) != key
    ensures var conds := ConditionsOf(ApplyOptionAttribute(o, p, num).value, keyword);
            && (key in conds <==> key in ConditionsOf(o, keyword))
            && (key in conds ==> conds[key] == ConditionsOf(o, keyword)[key])
  {
  }

  /** A key that no `IF` (or `SHOWIF`) cell of the row names keeps the
      presence and value it had before the row's cells were applied; cells of
      the other keyword never touch it. */
  lemma {:induction false} ConditionUntouched(opt: GameOption, cells: seq<Parts>, num: NumberReader, keyword: string, key: string)
    requires keyword == "IF" || keyword == "SHOWIF"
    requires forall q :: q in cells && q.keyword == keyword ==> KeyName(Arg(q, 0)) != key
    ensures var r := ApplyOptionAttributes(opt, cells, num);
            r.Ok? ==>
              var conds := ConditionsOf(r.value, keyword);
              && (key in conds <==> key in ConditionsOf(opt, keyword))
              && (key in conds ==> conds[key] == ConditionsOf(opt, keyword)[key])
  {
    if cells != [] && ApplyOptionAttributes(opt, cells, num).Ok? {
      var init := cells[..|cells| - 1];
      var last := cells[|cells| - 1];
      ApplyOptionAttributesSnoc(opt, cells, num);
      assert forall q :: q in init ==> q in cells;
      ConditionUntouched(opt, init, num, keyword, key);
      ConditionKept(ApplyOptionAttributes(opt, init, num).value, last, num, keyword, key);
    }
  }
}
