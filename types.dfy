/** The data model of the builder: terms, buckets, operators and the output mode
    (src/lib/types.ts, with the `Term` record that src/App.tsx stores in each bucket). */
module Types {

  /** The operator that joins a bucket's group to the next active bucket's group. */
  datatype Operator = And | Or | AndNot

  /** The text an operator contributes to the query. */
  function OperatorText(op: Operator): string {
    match op
    case And => "AND"
    case Or => "OR"
    case AndNot => "AND NOT"
  }

  /** "pretty" (one token per line) or "minified" (one line). */
  datatype OutputMode = Pretty | Minified

  /** The ten display colours a term can be tagged with; they never affect the query. */
  datatype ColorKey = Lavender | Blue | Mint | Cyan | Teal | Yellow | Orange | Red | Pink | Violet

  /** A keyword or phrase with an identifier and a colour tag. */
  datatype Term = Term(id: string, value: string, colorKey: ColorKey)

  /** A named, toggleable group of terms; `operatorAfter` joins it to the next active bucket. */
  datatype Bucket = Bucket(
    id: string,
    name: string,
    terms: seq<Term>,
    isEnabled: bool,
    operatorAfter: Operator)

  /** The live query model (`AppState`): the bucket list and the output mode. */
  datatype BuilderState = BuilderState(buckets: seq<Bucket>, outputMode: OutputMode)
}
