/** JSON values as the decoder hands them over, and the accessors the program reads them with. */
module Values {
  import opened Text

  /** The characters a JSON number is written with. */
  predicate IsNumberChar(c: char) {
    IsDigit(c) || c in {'-', '+', '.', 'e', 'E'}
  }

  /** Digits, signs, the decimal point and the exponent. */
  lemma NumberCharExactly(c: char)
    ensures IsNumberChar(c) <==> c in "0123456789+-.eE"
  {
    var digits := "0123456789+-.eE";
    if IsDigit(c) {
      assert digits[c as int - '0' as int] == c;
    }
    assert digits[10] == '+' && digits[11] == '-' && digits[12] == '.' && digits[13] == 'e' && digits[14] == 'E';
  }

  /** A number keeps its source text (`json.Number`); it starts with a minus sign or a digit. */
  type NumberText = s: string | s != [] && (s[0] == '-' || IsDigit(s[0])) && forall c :: c in s ==> IsNumberChar(c)
    witness ['0']

  datatype Json =
    | Null
    | Bool(b: bool)
    | Num(text: NumberText)
    | Str(s: string)
    | Arr(items: seq<Json>)
    | Obj(fields: map<string, Json>)

  type Fields = map<string, Json>

  /** A failed type assertion to an object yields the nil map, which reads as an empty one. */
  function ObjectValue(v: Json): map<string, Json> {
    if v.Obj? then v.fields else map[]
  }

  /** A failed type assertion to a list yields the nil slice. */
  function ListValue(v: Json): seq<Json> {
    if v.Arr? then v.items else []
  }

  function StringValue(v: Json): string {
    if v.Str? then v.s else ""
  }

  function BoolValue(v: Json): bool {
    v.Bool? && v.b
  }

  /** Reading a missing key yields nil, the value JSON null decodes to. */
  function Field(fields: map<string, Json>, key: string): Json {
    if key in fields then fields[key] else Null
  }
}
