/** The walker that rejects request bodies in which some object names a field twice. */
module JsonFields {
  import opened Common
  import opened Strings = Text

  datatype Json =
    | Plain(text: string)  // number, boolean or null
    | Text(text: string)
    | Array(items: Items)
    | Object(fields: Fields)

  datatype Items = NoItem | Item(value: Json, others: Items)

  datatype Fields = NoField | Field(name: string, value: Json, others: Fields)

  /** What the decoder delivers; commas and colons are not tokens. */
  datatype Token = Delim(c: char) | Word(text: string) | Other(text: string)

  function Tokens(j: Json): seq<Token> {
    match j
    case Plain(t) => [Other(t)]
    case Text(t) => [Word(t)]
    case Array(items) => [Delim('[')] + ItemTokens(items)
    case Object(fields) => [Delim('{')] + FieldTokens(fields)
  }

  /** Items, with the bracket that closes them. */
  function ItemTokens(items: Items): seq<Token> {
    match items
    case NoItem => [Delim(']')]
    case Item(v, others) => Tokens(v) + ItemTokens(others)
  }

  function FieldTokens(fields: Fields): seq<Token> {
    match fields
    case NoField => [Delim('}')]
    case Field(n, v, others) => [Word(n)] + (Tokens(v) + FieldTokens(others))
  }

  function Names(fields: Fields): seq<string> {
    match fields
    case NoField => []
    case Field(n, _, others) => [n] + Names(others)
  }

  /** In every object at every depth no name occurs twice. */
  predicate NamesDistinct(j: Json) {
    match j
    case Plain(_) => true
    case Text(_) => true
    case Array(items) => ItemsDistinct(items)
    case Object(fields) => NoRepeats(Names(fields)) && ValuesDistinct(fields)
  }

  predicate ItemsDistinct(items: Items) {
    items.Item? ==> NamesDistinct(items.value) && ItemsDistinct(items.others)
  }

  predicate ValuesDistinct(fields: Fields) {
    fields.Field? ==> NamesDistinct(fields.value) && ValuesDistinct(fields.others)
  }

  // ---- the walk over tokens ----

  const ENDED := "EOF"
  const BAD_VALUE := "invalid JSON value"
  const BAD_KEY := "invalid JSON object key"
  const BAD_OBJECT := "invalid JSON object"
  const BAD_ARRAY := "invalid JSON array"

  function Twice(key: string): string { "duplicate JSON field " + key }

  /** Another element follows: neither the end nor a closing bracket. */
  predicate More(ts: seq<Token>) {
    ts != [] && ts[0] != Delim(']') && ts[0] != Delim('}')
  }

  /** The tokens left after one value, or the error that stops the walk. */
  function Walk(ts: seq<Token>): (left: Result<seq<Token>>)
    ensures left.Ok? ==> |left.value| < |ts|
    decreases |ts|, 0
  {
    if ts == [] then Err(ENDED)
    else
      match ts[0]
      case Word(_) => Ok(ts[1..])
      case Other(_) => Ok(ts[1..])
      case Delim(c) =>
        if c == '{' then WalkFields(ts[1..], {})
        else if c == '[' then WalkItems(ts[1..])
        else Err(BAD_VALUE)
  }

  function WalkFields(ts: seq<Token>, seen: set<string>): (left: Result<seq<Token>>)
    ensures left.Ok? ==> |left.value| < |ts|
    decreases |ts|, 1
  {
    if More(ts) then
      if !ts[0].Word? then Err(BAD_KEY)
      else if ts[0].text in seen then Err(Twice(ts[0].text))
      else
        match Walk(ts[1..])
        case Err(e) => Err(e)
        case Ok(rest) => WalkFields(rest, seen + {ts[0].text})
    else if ts == [] then Err(ENDED)
    else if ts[0] != Delim('}') then Err(BAD_OBJECT)
    else Ok(ts[1..])
  }

  function WalkItems(ts: seq<Token>): (left: Result<seq<Token>>)
    ensures left.Ok? ==> |left.value| < |ts|
    decreases |ts|, 1
  {
    if More(ts) then
      match Walk(ts)
      case Err(e) => Err(e)
      case Ok(rest) => WalkItems(rest)
    else if ts == [] then Err(ENDED)
    else if ts[0] != Delim(']') then Err(BAD_ARRAY)
    else Ok(ts[1..])
  }

  // ---- every value with distinct names is walked over exactly ----

  predicate NewNames(fields: Fields, seen: set<string>) {
    NoRepeats(Names(fields)) && forall k :: 0 <= k < |Names(fields)| ==> Names(fields)[k] !in seen
  }

  lemma {:induction false} NewNamesNext(fields: Fields, seen: set<string>)
    requires fields.Field?
    ensures NewNames(fields, seen) <==> fields.name !in seen && NewNames(fields.others, seen + {fields.name})
  {
    var names, others := Names(fields), Names(fields.others);
    assert names == [fields.name] + others;
    assert forall k :: 0 <= k < |others| ==> others[k] == names[k + 1];
    if NewNames(fields, seen) {
      assert names[0] !in seen;
      forall k | 0 <= k < |others| ensures others[k] !in seen + {fields.name} { assert names[0] != names[k + 1]; }
    }
    if fields.name !in seen && NewNames(fields.others, seen + {fields.name}) {
      forall i, k | 0 <= i < k < |names| ensures names[i] != names[k] {
        assert others[k - 1] !in seen + {fields.name};
        assert i > 0 ==> names[i] == others[i - 1] && names[k] == others[k - 1];
      }
      forall k | 0 <= k < |names| ensures names[k] !in seen {
        assert k > 0 ==> names[k] == others[k - 1];
      }
    }
  }

  lemma {:induction false} Head(t: Token, ts: seq<Token>)
    ensures ([t] + ts)[0] == t && ([t] + ts)[1..] == ts
  {
  }

  /** Walking over a value and whatever follows it: what follows is left over exactly when all
      names in the value are distinct, and the walk fails otherwise. */
  lemma {:induction false} WalkValue(j: Json, rest: seq<Token>)
    ensures if NamesDistinct(j) then Walk(Tokens(j) + rest) == Ok(rest) else Walk(Tokens(j) + rest).Err?
  {
    match j
    case Plain(t) => Head(Other(t), rest);
    case Text(t) => Head(Word(t), rest);
    case Array(items) =>
      assert Tokens(j) + rest == [Delim('[')] + (ItemTokens(items) + rest);
      WalkItemList(items, rest);
    case Object(fields) =>
      assert Tokens(j) + rest == [Delim('{')] + (FieldTokens(fields) + rest);
      WalkFieldList(fields, rest, {});
      assert NewNames(fields, {}) <==> NoRepeats(Names(fields));
  }

  lemma {:induction false} WalkItemList(items: Items, rest: seq<Token>)
    ensures var ts := ItemTokens(items) + rest;
      if ItemsDistinct(items) then WalkItems(ts) == Ok(rest) else WalkItems(ts).Err?
  {
    match items
    case NoItem => Head(Delim(']'), rest);
    case Item(v, others) =>
      var after := ItemTokens(others) + rest;
      assert ItemTokens(items) + rest == Tokens(v) + after;
      WalkValue(v, after);
      WalkItemList(others, rest);
  }

  lemma {:induction false} WalkFieldList(fields: Fields, rest: seq<Token>, seen: set<string>)
    ensures var ts := FieldTokens(fields) + rest;
      if NewNames(fields, seen) && ValuesDistinct(fields)
        then WalkFields(ts, seen) == Ok(rest) else WalkFields(ts, seen).Err?
  {
    match fields
    case NoField => Head(Delim('}'), rest);
    case Field(n, v, others) =>
      var after := FieldTokens(others) + rest;
      assert FieldTokens(fields) + rest == [Word(n)] + (Tokens(v) + after);
      Head(Word(n), Tokens(v) + after);
      NewNamesNext(fields, seen);
      WalkValue(v, after);
      WalkFieldList(others, rest, seen + {n});
  }

  // ---- and nothing else is ----

  /** Whatever the walk passes over is a value with distinct names. */
  lemma {:induction false} WalkedValue(ts: seq<Token>) returns (j: Json)
    requires Walk(ts).Ok?
    ensures ts == Tokens(j) + Walk(ts).value && NamesDistinct(j)
    decreases |ts|, 0
  {
    match ts[0]
    case Word(t) => j := Text(t);
    case Other(t) => j := Plain(t);
    case Delim(c) =>
      if c == '{' {
        var fields := WalkedFields(ts[1..], {});
        j := Object(fields);
      } else {
        var items := WalkedItems(ts[1..]);
        j := Array(items);
      }
  }

  lemma {:induction false} WalkedItems(ts: seq<Token>) returns (items: Items)
    requires WalkItems(ts).Ok?
    ensures ts == ItemTokens(items) + WalkItems(ts).value && ItemsDistinct(items)
    decreases |ts|, 1
  {
    if More(ts) {
      var v := WalkedValue(ts);
      var others := WalkedItems(Walk(ts).value);
      items := Item(v, others);
    } else {
      items := NoItem;
    }
  }

  lemma {:induction false} WalkedFields(ts: seq<Token>, seen: set<string>) returns (fields: Fields)
    requires WalkFields(ts, seen).Ok?
    ensures ts == FieldTokens(fields) + WalkFields(ts, seen).value
    ensures NewNames(fields, seen) && ValuesDistinct(fields)
    decreases |ts|, 1
  {
    if More(ts) {
      var v := WalkedValue(ts[1..]);
      var others := WalkedFields(Walk(ts[1..]).value, seen + {ts[0].text});
      fields := Field(ts[0].text, v, others);
      NewNamesNext(fields, seen);
    } else {
      fields := NoField;
    }
  }

  /** A body is accepted exactly when its tokens are those of one JSON value in which no object at
      any depth names a field twice. */
  lemma {:induction false} AcceptedExactly(ts: seq<Token>)
    ensures Walk(ts) == Ok([]) <==> exists j :: ts == Tokens(j) && NamesDistinct(j)
  {
    if Walk(ts) == Ok([]) {
      var j := WalkedValue(ts);
      assert ts == Tokens(j);
    }
    if j :| ts == Tokens(j) && NamesDistinct(j) {
      WalkValue(j, []);
      assert Tokens(j) + [] == Tokens(j);
    }
  }

  // ---- the decoder ----

  class Decoder {
    const tokens: seq<Token>
    var pos: nat

    ghost predicate Valid() reads this { pos <= |tokens| }

    function Left(): seq<Token>
      requires Valid()
      reads this
    {
      tokens[pos..]
    }

    constructor (tokens: seq<Token>)
      ensures Valid() && Left() == tokens
    {
      this.tokens, pos := tokens, 0;
    }

    method Next() returns (t: Result<Token>)
      requires Valid()
      modifies this
      ensures Valid()
      ensures if old(Left()) == [] then t == Err(ENDED) && Left() == []
        else t == Ok(old(Left())[0]) && Left() == old(Left())[1..]
    {
      if pos == |tokens| {
        return Err(ENDED);
      }
      t := Ok(tokens[pos]);
      pos := pos + 1;
    }
  }

  /** The walker on the decoder: reads exactly one value with distinct names, or reports why not. */
  method RejectDuplicatesInValue(d: Decoder) returns (failure: Option<string>)
    requires d.Valid()
    modifies d
    ensures d.Valid()
    ensures Walk(old(d.Left())) == if failure.None? then Ok(d.Left()) else Err(failure.value)
    decreases |d.tokens| - d.pos
  {
    var token := d.Next();
    if token.Err? {
      return Some(token.error);
    }
    if !token.value.Delim? {
      return None;
    }
    if token.value.c == '{' {
      var seen: set<string> := {};
      while More(d.Left())
        invariant d.Valid() && old(d.pos) < d.pos
        invariant Walk(old(d.Left())) == WalkFields(d.Left(), seen)
        decreases |d.tokens| - d.pos
      {
        var key := d.Next();
        if key.Err? {
          assert false; // More has seen a token
        }
        if !key.value.Word? {
          return Some(BAD_KEY);
        }
        if key.value.text in seen {
          return Some(Twice(key.value.text));
        }
        seen := seen + {key.value.text};
        failure := RejectDuplicatesInValue(d);
        if failure.Some? {
          return;
        }
      }
      var end := d.Next();
      if end.Err? {
        return Some(end.error);
      }
      return if end.value == Delim('}') then None else Some(BAD_OBJECT);
    } else if token.value.c == '[' {
      while More(d.Left())
        invariant d.Valid() && old(d.pos) < d.pos
        invariant Walk(old(d.Left())) == WalkItems(d.Left())
        decreases |d.tokens| - d.pos
      {
        failure := RejectDuplicatesInValue(d);
        if failure.Some? {
          return;
        }
      }
      var end := d.Next();
      if end.Err? {
        return Some(end.error);
      }
      return if end.value == Delim(']') then None else Some(BAD_ARRAY);
    }
    return Some(BAD_VALUE);
  }

  /** The whole body: one value, and nothing after it. */
  method RejectDuplicateFields(body: seq<Token>) returns (failure: Option<string>)
    ensures failure.None? <==> exists j :: body == Tokens(j) && NamesDistinct(j)
  {
    var d := new Decoder(body);
    failure := RejectDuplicatesInValue(d);
    AcceptedExactly(body);
    if failure.Some? {
      return;
    }
    if d.pos < |d.tokens| {
      return Some("request body must contain a single JSON value");
    }
  }
}
