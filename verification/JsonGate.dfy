/**
The gate in front of the REST gateway: a body must be exactly one JSON object
in which no object, at any depth, repeats a key. The decoder is taken as the
sequence of tokens it yields; `Malformed` stands for a token it fails on.
 */
module JsonGate {
  import opened Base

  datatype Token = OpenObject | CloseObject | OpenArray | CloseArray | Text(text: string) | Scalar | Malformed

  // ---- JSON values (section 4 of RFC 8259) and their tokens ----------------

  datatype Json = Leaf(token: Token) | Object(members: Members) | Array(items: Items)

  datatype Members = NoMembers | Member(key: string, value: Json, rest: Members)

  datatype Items = NoItems | Item(value: Json, rest: Items)

  function Flatten(v: Json): seq<Token> {
    match v
    case Leaf(t) => [t]
    case Object(ms) => [OpenObject] + FlattenMembers(ms) + [CloseObject]
    case Array(xs) => [OpenArray] + FlattenItems(xs) + [CloseArray]
  }

  function FlattenMembers(ms: Members): seq<Token> {
    match ms
    case NoMembers => []
    case Member(key, value, rest) => [Text(key)] + Flatten(value) + FlattenMembers(rest)
  }

  function FlattenItems(xs: Items): seq<Token> {
    match xs
    case NoItems => []
    case Item(value, rest) => Flatten(value) + FlattenItems(rest)
  }

  function Keys(ms: Members): set<string> {
    match ms
    case NoMembers => {}
    case Member(key, _, rest) => {key} + Keys(rest)
  }

  /** A well-formed value in which every object, at every depth, has pairwise distinct keys. */
  predicate Proper(v: Json) {
    match v
    case Leaf(t) => t.Text? || t.Scalar?
    case Object(ms) => ProperMembers(ms)
    case Array(xs) => ProperItems(xs)
  }

  predicate ProperMembers(ms: Members) {
    match ms
    case NoMembers => true
    case Member(key, value, rest) => key !in Keys(rest) && Proper(value) && ProperMembers(rest)
  }

  predicate ProperItems(xs: Items) {
    match xs
    case NoItems => true
    case Item(value, rest) => Proper(value) && ProperItems(rest)
  }

  // ---- what the validator consumes -----------------------------------------

  /** decoder.More: another element of the current object or array follows. */
  predicate More(ts: seq<Token>) {
    ts != [] && !ts[0].CloseObject? && !ts[0].CloseArray?
  }

  /** The tokens left after the members and closing brace of an object whose earlier keys are `keys`. */
  function AfterObject(ts: seq<Token>, keys: set<string>): (r: Option<seq<Token>>)
    ensures r.Some? ==> |r.value| < |ts|
    decreases |ts|, 0
  {
    if More(ts) then
      if !ts[0].Text? || ts[0].text in keys || |ts| < 2 then None
      else
        var rest := AfterValue(ts[1], ts[2..]);
        if rest.None? then None else AfterObject(rest.value, keys + {ts[0].text})
    else if ts != [] && ts[0].CloseObject? then Some(ts[1..])
    else None
  }

  function AfterArray(ts: seq<Token>): (r: Option<seq<Token>>)
    ensures r.Some? ==> |r.value| < |ts|
    decreases |ts|, 0
  {
    if More(ts) then
      var rest := AfterValue(ts[0], ts[1..]);
      if rest.None? then None else AfterArray(rest.value)
    else if ts != [] && ts[0].CloseArray? then Some(ts[1..])
    else None
  }

  function AfterValue(first: Token, ts: seq<Token>): (r: Option<seq<Token>>)
    ensures r.Some? ==> |r.value| <= |ts|
    decreases |ts|, 1
  {
    match first
    case OpenObject => AfterObject(ts, {})
    case OpenArray => AfterArray(ts)
    case Text(_) => Some(ts)
    case Scalar => Some(ts)
    case _ => None
  }

  predicate Acceptable(ts: seq<Token>) {
    ts != [] && ts[0].OpenObject? && AfterObject(ts[1..], {}) == Some([])
  }

  // ---- complete: every proper value is consumed ----------------------------

  lemma {:induction false} ConsumesMembers(ms: Members, keys: set<string>, rest: seq<Token>)
    requires ProperMembers(ms) && Keys(ms) !! keys
    ensures AfterObject(FlattenMembers(ms) + [CloseObject] + rest, keys) == Some(rest)
    decreases ms
  {
    var ts := FlattenMembers(ms) + [CloseObject] + rest;
    match ms
    case NoMembers =>
      assert ts[1..] == rest;
    case Member(key, value, more) =>
      var tail := FlattenMembers(more) + [CloseObject] + rest;
      FlattenStarts(value);
      assert ts == [Text(key)] + Flatten(value) + tail;
      ConsumesValue(value, tail);
      assert ts[1] == (Flatten(value) + tail)[0] && ts[2..] == (Flatten(value) + tail)[1..];
      ConsumesMembers(more, keys + {key}, rest);
  }

  lemma {:induction false} ConsumesItems(xs: Items, rest: seq<Token>)
    requires ProperItems(xs)
    ensures AfterArray(FlattenItems(xs) + [CloseArray] + rest) == Some(rest)
    decreases xs
  {
    var ts := FlattenItems(xs) + [CloseArray] + rest;
    match xs
    case NoItems =>
      assert ts[1..] == rest;
    case Item(value, more) =>
      var tail := FlattenItems(more) + [CloseArray] + rest;
      FlattenStarts(value);
      assert ts == Flatten(value) + tail;
      ConsumesValue(value, tail);
      ConsumesItems(more, rest);
  }

  /** The first token of a proper value is not a closing delimiter. */
  lemma FlattenStarts(v: Json)
    requires Proper(v)
    ensures Flatten(v) != [] && !Flatten(v)[0].CloseObject? && !Flatten(v)[0].CloseArray?
  {
  }

  lemma {:induction false} ConsumesValue(v: Json, rest: seq<Token>)
    requires Proper(v)
    ensures Flatten(v) != [] && AfterValue((Flatten(v) + rest)[0], (Flatten(v) + rest)[1..]) == Some(rest)
    decreases v
  {
    var ts := Flatten(v) + rest;
    match v
    case Leaf(t) =>
      assert ts[1..] == rest;
    case Object(ms) =>
      assert ts[1..] == FlattenMembers(ms) + [CloseObject] + rest;
      ConsumesMembers(ms, {}, rest);
    case Array(xs) =>
      assert ts[1..] == FlattenItems(xs) + [CloseArray] + rest;
      ConsumesItems(xs, rest);
  }

  // ---- sound: what is consumed is a proper value ---------------------------

  lemma {:induction false} MembersOf(ts: seq<Token>, keys: set<string>) returns (ms: Members)
    requires AfterObject(ts, keys).Some?
    ensures ProperMembers(ms) && Keys(ms) !! keys
    ensures ts == FlattenMembers(ms) + [CloseObject] + AfterObject(ts, keys).value
    decreases |ts|, 0
  {
    if More(ts) {
      var after := AfterValue(ts[1], ts[2..]).value;
      var value := ValueOf(ts[1], ts[2..]);
      var rest := MembersOf(after, keys + {ts[0].text});
      ms := Member(ts[0].text, value, rest);
      Rejoin(ts, Flatten(value), after, FlattenMembers(rest), AfterObject(ts, keys).value);
    } else {
      ms := NoMembers;
      assert ts == [CloseObject] + ts[1..];
    }
  }

  lemma Rejoin(ts: seq<Token>, value: seq<Token>, after: seq<Token>, members: seq<Token>, rest: seq<Token>)
    requires |ts| >= 2 && [ts[1]] + ts[2..] == value + after && after == members + [CloseObject] + rest
    ensures ts == [ts[0]] + value + members + [CloseObject] + rest
  {
    assert ts == [ts[0]] + ([ts[1]] + ts[2..]);
  }

  lemma {:induction false} ItemsOf(ts: seq<Token>) returns (xs: Items)
    requires AfterArray(ts).Some?
    ensures ProperItems(xs) && ts == FlattenItems(xs) + [CloseArray] + AfterArray(ts).value
    decreases |ts|, 0
  {
    if More(ts) {
      var value := ValueOf(ts[0], ts[1..]);
      var rest := ItemsOf(AfterValue(ts[0], ts[1..]).value);
      xs := Item(value, rest);
      assert ts == [ts[0]] + ts[1..];
    } else {
      xs := NoItems;
      assert ts == [CloseArray] + ts[1..];
    }
  }

  lemma {:induction false} ValueOf(first: Token, ts: seq<Token>) returns (v: Json)
    requires AfterValue(first, ts).Some?
    ensures Proper(v) && [first] + ts == Flatten(v) + AfterValue(first, ts).value
    decreases |ts|, 1
  {
    match first
    case OpenObject =>
      var ms := MembersOf(ts, {});
      v := Object(ms);
    case OpenArray =>
      var xs := ItemsOf(ts);
      v := Array(xs);
    case Text(_) => v := Leaf(first);
    case Scalar => v := Leaf(first);
  }

  /**
  The gate is sound and complete: it accepts exactly the flattenings of one
  object with distinct keys at every depth.
   */
  lemma AcceptsExactlyProperObjects(ts: seq<Token>)
    ensures Acceptable(ts) <==> exists ms :: ProperMembers(ms) && ts == Flatten(Object(ms))
  {
    if Acceptable(ts) {
      var ms := MembersOf(ts[1..], {});
      assert ts == [ts[0]] + ts[1..];
      assert ts == Flatten(Object(ms));
    }
    forall ms | ProperMembers(ms) && ts == Flatten(Object(ms)) ensures Acceptable(ts) {
      ConsumesMembers(ms, {}, []);
      assert ts[1..] == FlattenMembers(ms) + [CloseObject] + [];
    }
  }

  // ---- the validator -------------------------------------------------------

  class Decoder {
    const tokens: seq<Token>
    var pos: nat

    constructor (tokens: seq<Token>)
      ensures this.tokens == tokens && pos == 0
    {
      this.tokens, pos := tokens, 0;
    }

    ghost predicate Valid()
      reads this
    {
      pos <= |tokens|
    }

    function Rest(): seq<Token>
      reads this
      requires pos <= |tokens|
    {
      tokens[pos..]
    }

    /** decoder.Token: None at the end of the input or on a malformed token. */
    method Token() returns (t: Option<Token>)
      requires Valid()
      modifies this
      ensures Valid()
      ensures old(Rest()) == [] ==> t.None? && Rest() == []
      ensures old(Rest()) != [] ==> Rest() == old(Rest())[1..]
      ensures old(Rest()) != [] ==> t == if old(Rest())[0].Malformed? then None else Some(old(Rest())[0])
    {
      if pos == |tokens| {
        return None;
      }
      pos := pos + 1;
      return if tokens[pos - 1].Malformed? then None else Some(tokens[pos - 1]);
    }
  }

  method ValidateObject(decoder: Decoder) returns (ok: bool)
    requires decoder.Valid()
    modifies decoder
    ensures decoder.Valid() && |decoder.Rest()| <= |old(decoder.Rest())|
    ensures ok <==> AfterObject(old(decoder.Rest()), {}).Some?
    ensures ok ==> AfterObject(old(decoder.Rest()), {}) == Some(decoder.Rest())
    decreases |decoder.Rest()|, 0
  {
    ghost var start := decoder.Rest();
    var keys: set<string> := {};
    while More(decoder.Rest())
      invariant decoder.Valid() && |decoder.Rest()| <= |start|
      invariant AfterObject(decoder.Rest(), keys) == AfterObject(start, {})
      decreases |decoder.Rest()|
    {
      var key := decoder.Token();
      if key.None? || !key.value.Text? || key.value.text in keys {
        return false;
      }
      keys := keys + {key.value.text};
      var value := decoder.Token();
      if value.None? {
        return false;
      }
      ok := ValidateValue(decoder, value.value);
      if !ok {
        return false;
      }
    }
    var closing := decoder.Token();
    return closing == Some(CloseObject);
  }

  method ValidateValue(decoder: Decoder, value: Token) returns (ok: bool)
    requires decoder.Valid()
    modifies decoder
    ensures decoder.Valid() && |decoder.Rest()| <= |old(decoder.Rest())|
    ensures ok <==> AfterValue(value, old(decoder.Rest())).Some?
    ensures ok ==> AfterValue(value, old(decoder.Rest())) == Some(decoder.Rest())
    decreases |decoder.Rest()|, 1
  {
    match value
    case OpenObject => ok := ValidateObject(decoder);
    case OpenArray => ok := ValidateArray(decoder);
    case Text(_) => ok := true;
    case Scalar => ok := true;
    case _ => ok := false;
  }

  /** The array branch of validateJSONValue. */
  method ValidateArray(decoder: Decoder) returns (ok: bool)
    requires decoder.Valid()
    modifies decoder
    ensures decoder.Valid() && |decoder.Rest()| <= |old(decoder.Rest())|
    ensures ok <==> AfterArray(old(decoder.Rest())).Some?
    ensures ok ==> AfterArray(old(decoder.Rest())) == Some(decoder.Rest())
    decreases |decoder.Rest()|, 0
  {
    ghost var start := decoder.Rest();
    while More(decoder.Rest())
      invariant decoder.Valid() && |decoder.Rest()| <= |start|
      invariant AfterArray(decoder.Rest()) == AfterArray(start)
      decreases |decoder.Rest()|
    {
      var item := decoder.Token();
      if item.None? {
        return false;
      }
      ok := ValidateValue(decoder, item.value);
      if !ok {
        return false;
      }
    }
    var closing := decoder.Token();
    return closing == Some(CloseArray);
  }

  /** validateSingleJSONObject. */
  method ValidateSingleObject(tokens: seq<Token>) returns (ok: bool)
    ensures ok <==> exists ms :: ProperMembers(ms) && tokens == Flatten(Object(ms))
  {
    AcceptsExactlyProperObjects(tokens);
    var decoder := new Decoder(tokens);
    var first := decoder.Token();
    if first != Some(OpenObject) {
      return false;
    }
    ok := ValidateObject(decoder);
    if !ok {
      return false;
    }
    return decoder.pos == |decoder.tokens|;
  }
}
