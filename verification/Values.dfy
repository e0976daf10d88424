/** The deterministic value algebra carried by event parameters.  A map is its entries in
    ascending key order. */
module Values {
  import opened Texts

  datatype Value =
    | Nil
    | Bool(flag: bool)
    | Triv
    | Str(text: Text)
    | Character(code: nat)
    | RapideString(codes: seq<nat>)
    | Module(identity: Text)
    | Record(owner: Text, fields: seq<Field>)
    | Int(integer: int)
    | Unsigned(natural: nat)
    | Float(bits: nat)
    | Bytes(bytes: Text)
    | List(items: seq<Value>)
    | Map(entries: seq<Field>)

  datatype Field = Field(name: Text, value: Value)

  type Params = map<Text, Value>
}
