/** JavaScript values as the authority's walks see them: through own property descriptors. */
module JsHeap {

  datatype Option<+T> = None | Some(value: T)

  type Address = nat

  /** A UTF-16 code unit. */
  type Unit = u: int | 0 <= u < 0x10000

  datatype Value =
    | NullValue | Truth(b: bool) | Text(s: seq<Unit>) | Number(finite: bool, n: int) | Other | Ref(at: Address)

  /** A property key; `Length` is the name "length" and `Index` a canonical array index. */
  datatype Key = Length | Index(index: nat) | Name(name: seq<Unit>) | Symbol(id: nat)

  /** One own property; `value` is absent for an accessor. */
  datatype Property = Property(key: Key, enumerable: bool, value: Option<Value>)

  /** `sound` tells that a byte array's own metadata are intact and its memory is not shared. */
  datatype Kind = PlainRecord | OtherRecord | ArrayOf(length: nat) | Bytes(sound: bool, content: seq<nat>) | Callable

  /** Own properties in the order in which the engine lists them. */
  datatype Node = Node(proxy: bool, kind: Kind, properties: seq<Property>)

  type Heap = map<Address, Node>

  ghost predicate InHeap(heap: Heap, v: Value) {
    v.Ref? ==> v.at in heap
  }

  ghost predicate Closed(heap: Heap) {
    forall a, i :: a in heap && 0 <= i < |heap[a].properties| && heap[a].properties[i].value.Some? ==>
      InHeap(heap, heap[a].properties[i].value.value)
  }

  function Digits(n: nat): nat {
    if n < 10 then 1 else 1 + Digits(n / 10)
  }

  /** How many bytes a string takes in UTF-8; a lone surrogate is replaced by three bytes. */
  function Utf8Length(s: seq<Unit>): nat {
    if s == [] then 0
    else if s[0] < 0x80 then 1 + Utf8Length(s[1..])
    else if s[0] < 0x800 then 2 + Utf8Length(s[1..])
    else if 0xD800 <= s[0] < 0xDC00 && |s| > 1 && 0xDC00 <= s[1] < 0xE000 then 4 + Utf8Length(s[2..])
    else 3 + Utf8Length(s[1..])
  }

  /** The bytes of a key's name; a symbol has none. */
  function KeyBytes(key: Key): nat {
    match key
    case Length => 6
    case Index(i) => Digits(i)
    case Name(name) => Utf8Length(name)
    case Symbol(_) => 0
  }
}
