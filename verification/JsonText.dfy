/** Compact JSON text as `dumps_document` prints it, with its exact length.
    A `char` stands for one UTF-8 octet; scalars arrive already encoded. */
module JsonText {

  datatype Json =
    | Scalar(text: string)
    | List(items: seq<Json>)
    | Object(fields: seq<Member>)

  datatype Member = Member(key: string, value: Json)

  function Text(j: Json): string
    decreases j, 1
  {
    match j
    case Scalar(text) => text
    case List(items) => "[" + Items(items) + "]"
    case Object(fields) => "{" + Fields(fields) + "}"
  }

  function Items(items: seq<Json>): string
    decreases items, 0
  {
    if items == [] then ""
    else
      var last := Text(items[|items| - 1]);
      if |items| == 1 then last else Items(items[..|items| - 1]) + "," + last
  }

  function Field(member: Member): string
    decreases member, 0
  {
    "\"" + member.key + "\":" + Text(member.value)
  }

  function Fields(fields: seq<Member>): string
    decreases fields, 0
  {
    if fields == [] then ""
    else
      var last := Field(fields[|fields| - 1]);
      if |fields| == 1 then last else Fields(fields[..|fields| - 1]) + "," + last
  }

  function Quoted(s: string): Json {
    Scalar("\"" + s + "\"")
  }

  // --- decimal numerals -----------------------------------------------------

  function Decimal(n: nat): string {
    if n < 10 then [('0' as int + n) as char] else Decimal(n / 10) + Decimal(n % 10)
  }

  function Digits(n: nat): nat {
    if n < 10 then 1 else Digits(n / 10) + 1
  }

  lemma {:induction false} DecimalLength(n: nat)
    ensures |Decimal(n)| == Digits(n)
  {
    if n >= 10 {
      DecimalLength(n / 10);
    }
  }

  lemma {:induction false} DigitsMonotone(a: nat, b: nat)
    requires a <= b
    ensures 1 <= Digits(a) <= Digits(b)
  {
    if a >= 10 {
      DigitsMonotone(a / 10, b / 10);
    } else if b >= 10 {
      DigitsMonotone(0, b / 10);
    }
  }

  // --- lengths --------------------------------------------------------------

  /** Octets that the items of one list take between its brackets. */
  function ListBytes(items: seq<Json>): nat {
    if items == [] then 0
    else ListBytes(items[..|items| - 1]) + |Text(items[|items| - 1])| + (if |items| == 1 then 0 else 1)
  }

  lemma {:induction false} ListBytesExact(items: seq<Json>)
    ensures |Text(List(items))| == 2 + ListBytes(items)
  {
    ItemsLength(items);
  }

  lemma {:induction false} ItemsLength(items: seq<Json>)
    ensures |Items(items)| == ListBytes(items)
  {
    if items != [] {
      ItemsLength(items[..|items| - 1]);
    }
  }

  /** The running total that grows by one contribution per accepted item. */
  lemma {:induction false} ListBytesAppend(items: seq<Json>, item: Json)
    ensures ListBytes(items + [item]) == ListBytes(items) + |Text(item)| + (if items == [] then 0 else 1)
  {
    assert (items + [item])[..|items|] == items;
  }

  /** An object is longer than any of its values. */
  lemma {:induction false} FieldInside(fields: seq<Member>, i: nat)
    requires i < |fields|
    ensures |Fields(fields)| >= |Text(fields[i].value)|
  {
    if i < |fields| - 1 {
      FieldInside(fields[..|fields| - 1], i);
    }
  }

  /** Giving one key another value moves an object's length by the difference alone. */
  lemma {:induction false} ReplaceField(fields: seq<Member>, i: nat, value: Json)
    requires i < |fields|
    ensures |Text(Object(fields[i := fields[i].(value := value)]))| + |Text(fields[i].value)|
         == |Text(Object(fields))| + |Text(value)|
  {
    ReplaceInFields(fields, i, value);
  }

  lemma {:induction false} ReplaceInFields(fields: seq<Member>, i: nat, value: Json)
    requires i < |fields|
    ensures |Fields(fields[i := fields[i].(value := value)])| + |Text(fields[i].value)|
         == |Fields(fields)| + |Text(value)|
  {
    var replaced, n := fields[i := fields[i].(value := value)], |fields| - 1;
    if i < n {
      ReplaceInFields(fields[..n], i, value);
      assert replaced[..n] == fields[..n][i := fields[i].(value := value)];
    } else {
      assert replaced[..n] == fields[..n];
    }
  }
}
