// What a cached value looks like when it is read back (mypalace/cache/decorator.py,
// mypalace/cache/client.py).
module Jsonable {

  // A loader's value. A model carries what model_dump(mode="json") makes of it, it and any other
  // object the text that str makes of it.
  datatype Py =
    | Null
    | Bool(b: bool)
    | Number(n: real)
    | Str(s: string)
    | List(items: seq<Py>)
    | Tuple(items: seq<Py>)
    | Dict(keys: seq<string>, items: seq<Py>)
    | Model(dumped: Py, text: string)
    | Other(text: string)

  function ToJsonable(v: Py): Py {
    match v
    case Model(dumped, _) => dumped
    case List(items) => List(seq(|items|, i requires 0 <= i < |items| => ToJsonable(items[i])))
    case Tuple(items) => List(seq(|items|, i requires 0 <= i < |items| => ToJsonable(items[i])))
    case Dict(keys, items) => Dict(keys, seq(|items|, i requires 0 <= i < |items| => ToJsonable(items[i])))
    case _ => v
  }

  // json.dumps with default=str, and json.loads.
  function Decoded(v: Py): Py {
    match v
    case Model(_, text) => Str(text)
    case Other(text) => Str(text)
    case List(items) => List(seq(|items|, i requires 0 <= i < |items| => Decoded(items[i])))
    case Tuple(items) => List(seq(|items|, i requires 0 <= i < |items| => Decoded(items[i])))
    case Dict(keys, items) => Dict(keys, seq(|items|, i requires 0 <= i < |items| => Decoded(items[i])))
    case _ => v
  }

  // What a later hit returns for a value that a miss returned and stored.
  function ReadBack(v: Py): Py {
    Decoded(ToJsonable(v))
  }

  // JSON's own values all the way down.
  predicate Plain(v: Py) {
    match v
    case List(items) => forall i | 0 <= i < |items| :: Plain(items[i])
    case Dict(_, items) => forall i | 0 <= i < |items| :: Plain(items[i])
    case Tuple(_) => false
    case Model(_, _) => false
    case Other(_) => false
    case _ => true
  }

  // Models dump to JSON values.
  predicate DumpsPlain(v: Py) {
    match v
    case List(items) => forall i | 0 <= i < |items| :: DumpsPlain(items[i])
    case Tuple(items) => forall i | 0 <= i < |items| :: DumpsPlain(items[i])
    case Dict(_, items) => forall i | 0 <= i < |items| :: DumpsPlain(items[i])
    case Model(dumped, _) => Plain(dumped)
    case _ => true
  }

  lemma {:induction false} DecodedIsPlain(v: Py)
    ensures Plain(Decoded(v))
  {
    if v.List? || v.Tuple? || v.Dict? {
      forall i | 0 <= i < |v.items| ensures Plain(Decoded(v.items[i])) {
        DecodedIsPlain(v.items[i]);
      }
    }
  }

  lemma {:induction false} PlainIsKept(v: Py)
    requires Plain(v)
    ensures ToJsonable(v) == v && Decoded(v) == v
  {
    if v.List? || v.Dict? {
      forall i | 0 <= i < |v.items| ensures ToJsonable(v.items[i]) == v.items[i] && Decoded(v.items[i]) == v.items[i] {
        PlainIsKept(v.items[i]);
      }
    }
  }

  // A hit returns what the miss returned exactly when the loader's value is plain JSON.
  lemma {:induction false} HitEqualsMissIff(v: Py)
    ensures ReadBack(v) == v <==> Plain(v)
  {
    DecodedIsPlain(ToJsonable(v));
    if Plain(v) {
      PlainIsKept(v);
    }
  }

  // Nothing is lost beyond the first read: caching a value that was read back keeps it.
  lemma ReadBackIsStable(v: Py)
    ensures ReadBack(ReadBack(v)) == ReadBack(v)
  {
    DecodedIsPlain(ToJsonable(v));
    PlainIsKept(ReadBack(v));
  }

  // The same value without its classes: sequences as lists, models as their dumps, other
  // objects as their text.
  function Stripped(v: Py): Py {
    match v
    case Model(dumped, _) => dumped
    case Other(text) => Str(text)
    case List(items) => List(seq(|items|, i requires 0 <= i < |items| => Stripped(items[i])))
    case Tuple(items) => List(seq(|items|, i requires 0 <= i < |items| => Stripped(items[i])))
    case Dict(keys, items) => Dict(keys, seq(|items|, i requires 0 <= i < |items| => Stripped(items[i])))
    case _ => v
  }

  // The coercion leaves no model for the encoder to stringify: its dump survives whole.
  lemma {:induction false} ModelsSurvive(v: Py)
    requires DumpsPlain(v)
    ensures ReadBack(v) == Stripped(v)
  {
    if v.List? || v.Tuple? || v.Dict? {
      forall i | 0 <= i < |v.items| ensures ReadBack(v.items[i]) == Stripped(v.items[i]) {
        ModelsSurvive(v.items[i]);
      }
    } else if v.Model? {
      PlainIsKept(v.dumped);
    }
  }
}
