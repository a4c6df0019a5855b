/**
 * The JavaScript values a caller puts into the parameter object of a Bot API
 * call, reduced to what the client distinguishes: scalars, `null`, plain
 * objects and arrays, raw binary data, blobs and files, and readable streams.
 */
module Values {
  import opened Wrappers

  newtype byte = x: int | 0 <= x < 256
  type Bytes = seq<byte>

  /** Something thrown by the host (a rejected `fetch`, a body that is not JSON, a stream error); only its message is kept. */
  datatype Fault = Fault(message: string)

  /** Values whose `typeof` is not `object`. Numbers are integers in this model. */
  datatype Prim = Str(s: string) | Num(n: int) | Bool(b: bool) | Undefined

  /** The raw binary kinds: a Node `Buffer`, an `ArrayBuffer`, any other typed array, a `DataView`. */
  datatype BinaryKind = NodeBuffer | RawArrayBuffer | TypedArray | View

  datatype Value =
    | Scalar(prim: Prim)
      /** `null` (whose `typeof` is `object`) */
    | Null
      /** a plain object or an array, with the text `JSON.stringify` gives for it */
    | Structured(json: string)
    | Binary(kind: BinaryKind, bytes: Bytes)
    | Blob(bytes: Bytes, mime: string)
    | File(bytes: Bytes, name: string, mime: string)
      /** a `Readable`: the chunks it will emit, its file-system `path` if any, and the error it emits instead of ending, if any */
    | Stream(chunks: seq<Bytes>, path: Option<string>, failure: Option<Fault>)
  {
    /** The `instanceof` / `isTypedArray` test that makes a call multipart. */
    predicate IsFileLike() {
      Binary? || Blob? || File? || Stream?
    }

    /** `instanceof Blob` (a `File` is a `Blob`). */
    predicate IsBlobLike() {
      Blob? || File?
    }
  }

  const Undef: Value := Scalar(Undefined)

  /** JavaScript truthiness: `""`, `0`, `false`, `undefined` and `null` are falsy, every object is truthy. */
  predicate Truthy(v: Value) {
    match v
    case Scalar(p) =>
      (match p
       case Str(s) => s != ""
       case Num(n) => n != 0
       case Bool(b) => b
       case Undefined => false)
    case Null => false
    case _ => true
  }

  /** JavaScript `a || b`: the first operand when it is truthy, otherwise the second. */
  function Or(a: Value, b: Value): (r: Value)
    ensures Truthy(a) ==> r == a
    ensures !Truthy(a) ==> r == b
  {
    if Truthy(a) then a else b
  }

  /** `value.name`: a file's own name, `undefined` for every other binary value. */
  function OwnName(v: Value): Value {
    if v.File? then Scalar(Str(v.name)) else Undef
  }

  /** `value.type`: a blob's or file's own MIME type, `undefined` for raw binary values. */
  function OwnType(v: Value): Value {
    if v.IsBlobLike() then Scalar(Str(v.mime)) else Undef
  }

  /**
   * The top-level parameter object, as its `for ... in` loop enumerates it:
   * a sequence of (key, value) pairs whose keys are distinct.
   */
  predicate DistinctKeys(ps: seq<(string, Value)>) {
    forall i, j :: 0 <= i < j < |ps| ==> ps[i].0 != ps[j].0
  }

  type Params = ps: seq<(string, Value)> | DistinctKeys(ps)

  /** `k in params` */
  predicate HasKey(ps: seq<(string, Value)>, k: string) {
    exists i :: 0 <= i < |ps| && ps[i].0 == k
  }

  /** `params[k]`: the value stored under `k`, or `undefined` when there is none. */
  function Get(ps: seq<(string, Value)>, k: string): (r: Value)
    ensures !HasKey(ps, k) ==> r == Undef
  {
    if ps == [] then Undef
    else if ps[0].0 == k then ps[0].1
    else
      assert forall i :: 1 <= i < |ps| ==> ps[i] == ps[1..][i - 1];
      Get(ps[1..], k)
  }

  /** The key of a sidecar: `${k}$${field}`, for the fields `name` and `type`. */
  function Sidecar(k: string, field: string): string {
    k + "$" + field
  }

  /** In a parameter object with distinct keys, `params[k]` is the value of the one pair whose key is `k`. */
  lemma {:induction false} GetDistinct(ps: Params, i: nat)
    requires i < |ps|
    ensures Get(ps, ps[i].0) == ps[i].1
  {
    if i > 0 {
      var rest: Params := ps[1..];
      GetDistinct(rest, i - 1);
    }
  }
}
