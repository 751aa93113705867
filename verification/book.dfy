/** The records the sheet loader builds and the game walks: effects, options,
    pages and the book, with the fields the loader reads and writes. Every
    field the loader may leave `undefined` is an `Option`. */
module Book {
  import opened Results

  /** A JavaScript number as produced by `parseFloat`/`parseInt`: a value, or NaN. */
  datatype Number = NaN | Num(value: real)

  /** The host's number parsers, which the model does not re-implement. */
  datatype NumberReader = NumberReader(parseFloat: string -> Number, parseInt: string -> Option<int>)

  /** Seconds to milliseconds, as `parseFloat(x) * 1000` (NaN stays NaN). */
  function Millis(seconds: Number): (r: Number)
    ensures r.NaN? <==> seconds.NaN?
    ensures r.Num? ==> r.value / 1000.0 == seconds.value
  {
    match seconds
    case NaN => NaN
    case Num(s) => Num(s * 1000.0)
  }

  /** Variable-equality requirements: `cond[k] = v` as written by `IF k v`.
      A missing value token is `undefined`. */
  type Conditions = map<string, Option<string>>

  /** One parsed directive. A fresh effect has every field unset and an empty `state`. */
  datatype GameEffect = GameEffect(
    goto: Option<string>,
    debug: Option<string>,
    state: map<string, Option<string>>,
    time: Option<Number>,
    stress_scale: Option<Number>,
    stress: Option<Number>)

  const FreshEffect := GameEffect(None, None, map[], None, None, None)

  /** A choice offered on a page. `link` is the target `processOption` follows;
      the loader never sets it. */
  datatype GameOption = GameOption(
    text: string,
    link: Option<string>,
    cond: Conditions,
    showCond: Conditions,
    default: bool,
    effects: seq<GameEffect>)

  function FreshOption(text: string): GameOption {
    GameOption(text, None, map[], map[], false, [])
  }

  datatype GamePage = GamePage(
    text: string,
    prefix: string,
    options: seq<GameOption>,
    effects: seq<GameEffect>,
    start: bool,
    untimed: bool)

  function FreshPage(text: string, prefix: string): GamePage {
    GamePage(text, prefix, [], [], false, false)
  }

  /** The page graph, keyed by namespaced page id, and the page marked START. */
  datatype GameBook = GameBook(pages: map<string, GamePage>, startPage: Option<GamePage>)

  const EmptyBook := GameBook(map[], None)

  /** One spreadsheet cell: its row label and its text. */
  datatype Cell = Cell(row: string, content: string)
}
