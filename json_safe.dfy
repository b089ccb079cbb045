/** `json_safe`, the sanitiser both engines run over a report before it is sent
    as JSON: numpy integers become plain integers, a NaN or infinite float becomes
    `None`, and dicts and lists are rebuilt with their members sanitised. */
module JsonSafety {

  /** A Python or numpy float. */
  datatype Float = Finite(x: real) | NaN | PosInf | NegInf

  /** The values a report holds. `Int` stands for both `int` and `np.integer`,
      `Num` for both `float` and `np.floating`. */
  datatype Value =
    | Null
    | Bool(b: bool)
    | Int(i: int)
    | Num(f: Float)
    | Str(s: string)
    | List(items: seq<Value>)
    | Object(fields: map<string, Value>)

  /** No NaN or infinity anywhere inside `v`: what JSON can encode. */
  predicate Clean(v: Value) {
    match v
    case Num(f) => f.Finite?
    case List(xs) => forall i :: 0 <= i < |xs| ==> Clean(xs[i])
    case Object(m) => forall k :: k in m ==> Clean(m[k])
    case _ => true
  }

  /** `v` and `w` have the same lists, the same dict keys and the same scalars,
      except that a float of `v` may stand where `w` has `None`. */
  predicate SameShape(v: Value, w: Value) {
    match v
    case Num(f) => w == v || (w == Null && !f.Finite?)
    case List(xs) =>
      w.List? && |w.items| == |xs| && forall i :: 0 <= i < |xs| ==> SameShape(xs[i], w.items[i])
    case Object(m) =>
      w.Object? && w.fields.Keys == m.Keys && forall k :: k in m ==> SameShape(m[k], w.fields[k])
    case _ => w == v
  }

  function JsonSafe(v: Value): Value {
    match v
    case Num(f) => if f.Finite? then v else Null
    case Object(m) => Object(map k | k in m :: JsonSafe(m[k]))
    case List(xs) => List(seq(|xs|, i requires 0 <= i < |xs| => JsonSafe(xs[i])))
    case _ => v
  }

  /** The sanitised value is JSON-encodable and keeps the input's shape: only
      non-finite floats are replaced, by `None`. */
  lemma {:induction false} JsonSafeCleans(v: Value)
    ensures Clean(JsonSafe(v))
    ensures SameShape(v, JsonSafe(v))
  {
    match v
    case List(xs) =>
      forall i | 0 <= i < |xs| ensures Clean(JsonSafe(xs[i])) && SameShape(xs[i], JsonSafe(xs[i])) {
        JsonSafeCleans(xs[i]);
      }
    case Object(m) =>
      forall k | k in m ensures Clean(JsonSafe(m[k])) && SameShape(m[k], JsonSafe(m[k])) {
        JsonSafeCleans(m[k]);
      }
    case _ =>
  }

  /** A value that is already clean passes through unchanged. */
  lemma {:induction false} JsonSafeKeepsClean(v: Value)
    requires Clean(v)
    ensures JsonSafe(v) == v
  {
    match v
    case List(xs) =>
      forall i | 0 <= i < |xs| ensures JsonSafe(xs[i]) == xs[i] {
        JsonSafeKeepsClean(xs[i]);
      }
      assert JsonSafe(v).items == xs;
    case Object(m) =>
      forall k | k in m ensures JsonSafe(m[k]) == m[k] {
        JsonSafeKeepsClean(m[k]);
      }
      assert JsonSafe(v).fields == m;
    case _ =>
  }

  /** Sanitising twice is sanitising once. */
  lemma JsonSafeIdempotent(v: Value)
    ensures JsonSafe(JsonSafe(v)) == JsonSafe(v)
  {
    JsonSafeCleans(v);
    JsonSafeKeepsClean(JsonSafe(v));
  }
}
