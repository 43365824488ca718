/** JSON values as `serde_json` holds them, down to the two kinds of number. */
module Json {
  import opened Prelude
  import opened Binary64

  // The integers a JSON number can hold: those of i64 and of u64.
  type Word = n: int | -0x8000_0000_0000_0000 <= n < 0x1_0000_0000_0000_0000

  datatype Number = IntNumber(i: Word) | FloatNumber(f: F64)

  datatype Json =
    | Null
    | Bool(b: bool)
    | Num(n: Number)
    | Str(s: string)
    | Array(items: seq<Json>)
    | Object(entries: seq<Entry>)

  /** Objects keep the order in which their keys were inserted. */
  datatype Entry = Entry(key: string, value: Json)

  lemma WordIsBounded(i: Word)
    ensures IsWord(i)
  {
    LimitIsPow2();
    ShlAdd(1, 53, 4);
    ShlByFour(LIMIT);
    ShlAdd(1, 57, 4);
    ShlByFour(Pow2(57));
    assert Pow2(61) == 0x2000_0000_0000_0000;
    assert Pow2(62) == 2 * Pow2(61);
    assert Pow2(63) == 2 * Pow2(62);
    assert Pow2(64) == 2 * Pow2(63);
  }

  function NumberToF64(n: Number): F64 {
    match n
    case IntNumber(i) =>
      WordIsBounded(i);
      WordDoesNotOverflow(i);
      RoundIsDouble(i as real);
      Round(i as real).value
    case FloatNumber(f) => f
  }

  function AsF64(v: Json): Option<F64> {
    if v.Num? then Some(NumberToF64(v.n)) else None
  }

  function AsBool(v: Json): Option<bool> {
    if v.Bool? then Some(v.b) else None
  }
}
