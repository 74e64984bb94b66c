/** The bytecode format: values, instructions, event entries and programs. */
module Bytecode {
  import opened Prelude

  datatype Type = Void | Integer | Text

  /** The types a script can write down. */
  type ValueType = t: Type | t != Void witness Integer

  /** A runtime value is always an integer or a string. */
  datatype Value = Int(integer: int32) | Str(text: Bytes)

  function TypeOf(v: Value): ValueType {
    match v
    case Int(_) => Integer
    case Str(_) => Text
  }

  function DefaultValue(t: ValueType): Value {
    if t == Text then Str([]) else Int(0)
  }

  datatype Op =
    | PushConst | LoadLocal | StoreLocal | LoadGlobal | StoreGlobal
    | AddInt | SubInt | MulInt | ConcatStr
    | LessInt | GreaterInt | EqualInt | CastIntToStr
    | Jump | JumpIfZero | CallHost | Pop | Halt

  datatype Instruction = Instruction(op: Op, a: int, b: int)

  datatype EventEntry = EventEntry(
    name: Bytes, entryIp: int, paramTypes: seq<ValueType>, localCount: int)

  const ABI_VERSION: uint32 := 2

  datatype Program = Program(
    code: seq<Instruction>,
    constants: seq<Value>,
    hostNames: seq<Bytes>,
    globalDefaults: seq<Value>,
    events: seq<EventEntry>,
    abiVersion: uint32)

  /** The first entry carrying the name. */
  function FindEvent(events: seq<EventEntry>, name: Bytes): Option<EventEntry> {
    if events == [] then None
    else if events[0].name == name then Some(events[0])
    else FindEvent(events[1..], name)
  }

  /** Decimal digits of a natural number, without leading zeros. */
  function Digits(n: nat): Bytes {
    var d: Byte := (48 + n % 10) as char;
    if n < 10 then [d] else Digits(n / 10) + [d]
  }

  function IntToString(n: int): Bytes {
    if n < 0 then ['-'] + Digits(-n) else Digits(n)
  }
}
