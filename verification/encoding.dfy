/**
 * How `callMethod` turns the parameter object into a request body: JSON text
 * when no top-level value is file-like, otherwise a multipart form built field
 * by field, where the sidecar keys `k$name` and `k$type` override the name and
 * MIME type of the file sent under `k`.
 */
module Encoding {
  import opened Wrappers
  import opened Values
  import opened FormData

  /** `JSON.stringify(params)` with a JSON content type, or a multipart form. */
  datatype Body = JsonBody(params: Params) | FormBody(entries: seq<Entry>)

  /** The sidecar values `params[k$name]` and `params[k$type]` (`undefined` when absent). */
  datatype Meta = Meta(name: Value, mime: Value)

  function MetaOf(ps: Params, k: string): Meta {
    Meta(Get(ps, Sidecar(k, "name")), Get(ps, Sidecar(k, "type")))
  }

  /** Some top-level value is a Buffer, ArrayBuffer, typed array, DataView, Readable, Blob or File. */
  predicate AnyFileLike(ps: Params) {
    exists i :: 0 <= i < |ps| && ps[i].1.IsFileLike()
  }

  // ----- streamToFile -----

  function StripTrailingSlashes(p: string): (r: string)
    ensures |r| <= |p| && r == p[..|r|]
    ensures r == [] || r[|r| - 1] != '/'
    ensures |p| > 0 && p[|p| - 1] != '/' ==> r == p
  {
    if |p| > 0 && p[|p| - 1] == '/' then StripTrailingSlashes(p[..|p| - 1]) else p
  }

  /** What follows the last `/`. */
  function LastSegment(p: string): (r: string)
    ensures '/' !in r
    ensures |r| <= |p| && r == p[|p| - |r|..]
  {
    if p == [] || p[|p| - 1] == '/' then []
    else LastSegment(p[..|p| - 1]) + [p[|p| - 1]]
  }

  /** POSIX `path.basename`: the last segment once trailing separators are dropped. */
  function Basename(p: string): (r: string)
    ensures '/' !in r
  {
    LastSegment(StripTrailingSlashes(p))
  }

  /** The bytes of all chunks in arrival order. */
  function Concat(chunks: seq<Bytes>): Bytes {
    if chunks == [] then [] else chunks[0] + Concat(chunks[1..])
  }

  /** `stream.path && basename(stream.path)` */
  function PathName(path: Option<string>): Value {
    match path
    case None => Undef
    case Some(p) => if p == "" then Scalar(Str("")) else Scalar(Str(Basename(p)))
  }

  /**
   * `streamToFile(stream, name, type)`: a file of every chunk in order, named
   * `name || (stream.path && basename(stream.path))`, or the stream's error.
   */
  function Materialize(stream: Value, name: Value, mime: Value): (r: Result<Upload, Fault>)
    requires stream.Stream?
    ensures r.Err? <==> stream.failure.Some?
    ensures r.Err? ==> r.error == stream.failure.value
    ensures r.Ok? ==> r.value.bytes == Concat(stream.chunks) && r.value.mime == mime
    ensures r.Ok? && Truthy(name) ==> r.value.name == name
    ensures r.Ok? && !Truthy(name) ==> r.value.name == PathName(stream.path)
  {
    match stream.failure
    case Some(f) => Err(f)
    case None => Ok(Upload(Concat(stream.chunks), Or(name, PathName(stream.path)), mime))
  }

  // ----- the field stored for one key -----

  function DigitChar(d: nat): char
    requires d < 10
  {
    "0123456789"[d]
  }

  function NatText(n: nat): string
  {
    if n < 10 then [DigitChar(n)] else NatText(n / 10) + [DigitChar(n % 10)]
  }

  /** `String(p)`, which is what FormData stores for a primitive value. */
  function ScalarText(p: Prim): string {
    match p
    case Str(s) => s
    case Num(n) => if n < 0 then "-" + NatText(-n) else NatText(n)
    case Bool(b) => if b then "true" else "false"
    case Undefined => "undefined"
  }

  /** `JSON.stringify(value)` for a value whose `typeof` is `object`. */
  function JsonText(v: Value): string
    requires v.Null? || v.Structured?
  {
    if v.Null? then "null" else v.json
  }

  /** The part `callMethod` sets under a key holding `v`, given the key's sidecar values. */
  function FieldFor(v: Value, meta: Meta): (r: Result<Part, Fault>)
    ensures r.Err? <==> v.Stream? && v.failure.Some?
    ensures r.Err? ==> r.error == v.failure.value
  {
    if v.IsBlobLike() && !Truthy(meta.name) && !Truthy(meta.mime) then
      Ok(BlobEntry(v))
    else if v.IsBlobLike() || v.Binary? then
      Ok(Made(Upload(v.bytes, Or(meta.name, OwnName(v)), Or(meta.mime, OwnType(v)))))
    else if v.Stream? then
      match Materialize(v, meta.name, meta.mime)
      case Ok(u) => Ok(Made(u))
      case Err(f) => Err(f)
    else if v.Null? || v.Structured? then
      Ok(Text(JsonText(v)))
    else
      Ok(Text(ScalarText(v.prim)))
  }

  function FieldAt(ps: Params, i: nat): Result<Part, Fault>
    requires i < |ps|
  {
    FieldFor(ps[i].1, MetaOf(ps, ps[i].0))
  }

  /** The field of every key, in key order. */
  function Fields(ps: Params): (fs: seq<Result<Part, Fault>>)
    ensures |fs| == |ps|
    ensures forall i :: 0 <= i < |ps| ==> fs[i] == FieldAt(ps, i)
  {
    seq(|ps|, i requires 0 <= i < |ps| => FieldAt(ps, i))
  }

  /**
   * The (key, field) pairs of the first `n` keys in order, or the error of the
   * first key among them whose field cannot be built.
   */
  function ItemsUpTo(ps: Params, fields: seq<Result<Part, Fault>>, n: nat): (r: Result<seq<Entry>, Fault>)
    requires n <= |ps| == |fields|
    ensures r.Ok? ==> |r.value| == n
  {
    if n == 0 then Ok([])
    else
      match ItemsUpTo(ps, fields, n - 1)
      case Err(f) => Err(f)
      case Ok(xs) =>
        match fields[n - 1]
        case Err(f) => Err(f)
        case Ok(p) => Ok(xs + [(ps[n - 1].0, p)])
  }

  // ----- the reference form -----

  /** `s` is one of the two sidecar keys of base key `k`. */
  predicate IsSidecarOf(s: string, k: string) {
    s == Sidecar(k, "name") || s == Sidecar(k, "type")
  }

  /**
   * Item `i` survives the first `n` steps: no later base key among them has it
   * as a sidecar. Stated step by step, as the loop decides it.
   */
  predicate Kept(items: seq<Entry>, i: nat, n: nat)
    requires i < n <= |items|
    decreases n - i
  {
    n == i + 1 || (Kept(items, i, n - 1) && !IsSidecarOf(items[i].0, items[n - 1].0))
  }

  /**
   * The form after the first `n` items, from item `i` on: each item in order,
   * unless a later item's key has it as a sidecar.
   */
  function Collect(items: seq<Entry>, n: nat, i: nat): seq<Entry>
    requires i <= n <= |items|
    decreases n - i
  {
    if i == n then []
    else (if Kept(items, i, n) then [items[i]] else []) + Collect(items, n, i + 1)
  }

  /** The multipart body: the reference form of all the items, or the first field error. */
  function Multipart(ps: Params): Result<Body, Fault> {
    match ItemsUpTo(ps, Fields(ps), |ps|)
    case Err(f) => Err(f)
    case Ok(items) => Ok(FormBody(Collect(items, |ps|, 0)))
  }

  /** The body one attempt of `callMethod` sends, or the error that stops it. */
  function Encoded(ps: Params): Result<Body, Fault> {
    if !AnyFileLike(ps) then Ok(JsonBody(ps)) else Multipart(ps)
  }

  /**
   * One attempt's encoding: the first loop decides the mode, the second (in
   * `BuildForm`) builds the form.
   */
  method Encode(params: Params) returns (r: Result<Body, Fault>)
    ensures r == Encoded(params)
  {
    var multipart := false;
    for i := 0 to |params|
      invariant multipart <==> exists j :: 0 <= j < i && params[j].1.IsFileLike()
    {
      if params[i].1.IsFileLike() {
        multipart := true;
      }
    }
    if !multipart {
      return Ok(JsonBody(params));
    }
    r := BuildForm(params);
  }

  /** The second loop: the form is built key by key, deleting the key's sidecars and setting its field. */
  method BuildForm(params: Params) returns (r: Result<Body, Fault>)
    ensures r == Multipart(params)
  {
    var form: seq<Entry> := [];
    ghost var items: seq<Entry> := [];
    for i := 0 to |params|
      invariant ItemsUpTo(params, Fields(params), i) == Ok(items)
      invariant |items| == i
      invariant form == Collect(items, i, 0)
    {
      var k := params[i].0;
      var meta := Meta(Undef, Undef);
      ghost var previous := form;
      if HasKey(params, Sidecar(k, "name")) {
        meta := meta.(name := Get(params, Sidecar(k, "name")));
        form := Delete(form, Sidecar(k, "name")); // in case it was already added
      }
      if HasKey(params, Sidecar(k, "type")) {
        meta := meta.(mime := Get(params, Sidecar(k, "type")));
        form := Delete(form, Sidecar(k, "type"));
      }
      assert form == DeleteIfKey(params, DeleteIfKey(params, previous, Sidecar(k, "name")), Sidecar(k, "type"));
      assert meta == MetaOf(params, k);
      ItemsKeys(params, Fields(params), i);
      SidecarDeletes(params, items, i);
      var field := FieldFor(params[i].1, meta);
      if field.Err? {
        FieldFails(params, Fields(params), i);
        return Err(field.error);
      }
      FieldSucceeds(params, items, i);
      form := Set(form, k, field.value);
      items := items + [(k, field.value)];
    }
    return Ok(FormBody(form));
  }

  // ----- lemmas -----

  /** The items of the first `n` keys carry those keys, in order. */
  lemma {:induction false} ItemsKeys(ps: Params, fields: seq<Result<Part, Fault>>, n: nat)
    requires n <= |ps| == |fields|
    ensures ItemsUpTo(ps, fields, n).Ok? ==> forall j :: 0 <= j < n ==> ItemsUpTo(ps, fields, n).value[j].0 == ps[j].0
  {
    if n > 0 {
      ItemsKeys(ps, fields, n - 1);
    }
  }

  /** A failing field at key `n` is the error of the whole encoding. */
  lemma FieldFails(ps: Params, fields: seq<Result<Part, Fault>>, n: nat)
    requires n < |ps| == |fields| && ItemsUpTo(ps, fields, n).Ok? && fields[n].Err?
    ensures ItemsUpTo(ps, fields, |ps|) == Err(fields[n].error)
  {
    assert ItemsUpTo(ps, fields, n + 1) == Err(fields[n].error);
    ItemsStayFailed(ps, fields, n + 1);
  }

  /**
   * A field built at key `n` extends the items, and deleting the key's
   * sidecars and then setting its field turns the reference form of the first
   * `n` items into that of the first `n + 1`.
   */
  lemma FieldSucceeds(ps: Params, items: seq<Entry>, n: nat)
    requires n < |ps| && |items| == n && ItemsUpTo(ps, Fields(ps), n) == Ok(items) && FieldAt(ps, n).Ok?
    ensures var k, p := ps[n].0, FieldAt(ps, n).value;
      && ItemsUpTo(ps, Fields(ps), n + 1) == Ok(items + [(k, p)])
      && Set(Delete(Delete(Collect(items, n, 0), Sidecar(k, "name")), Sidecar(k, "type")), k, p)
         == Collect(items + [(k, p)], n + 1, 0)
  {
    var k, p := ps[n].0, FieldAt(ps, n).value;
    ItemsKeys(ps, Fields(ps), n);
    SidecarDeletes(ps, items, n);
    CollectStep(items + [(k, p)], n, 0);
    CollectPrefix(items, [(k, p)], n, 0);
  }

  /** Once a key's field fails, every longer prefix fails with the same error. */
  lemma {:induction false} ItemsStayFailed(ps: Params, fields: seq<Result<Part, Fault>>, n: nat)
    requires n <= |ps| == |fields|
    ensures ItemsUpTo(ps, fields, n).Err? ==> ItemsUpTo(ps, fields, |ps|) == ItemsUpTo(ps, fields, n)
    decreases |ps| - n
  {
    if n < |ps| && ItemsUpTo(ps, fields, n).Err? {
      assert ItemsUpTo(ps, fields, n + 1) == ItemsUpTo(ps, fields, n);
      ItemsStayFailed(ps, fields, n + 1);
    }
  }

  /** `Collect` over the first `n` items ignores the items after them. */
  lemma {:induction false} CollectPrefix(items: seq<Entry>, more: seq<Entry>, n: nat, i: nat)
    requires i <= n <= |items|
    ensures Collect(items + more, n, i) == Collect(items, n, i)
    decreases n - i
  {
    if i < n {
      CollectPrefix(items, more, n, i + 1);
      KeptPrefix(items, more, i, n);
      assert (items + more)[i] == items[i];
    }
  }

  lemma {:induction false} KeptPrefix(items: seq<Entry>, more: seq<Entry>, i: nat, n: nat)
    requires i < n <= |items|
    ensures Kept(items + more, i, n) == Kept(items, i, n)
    decreases n - i
  {
    if n > i + 1 {
      KeptPrefix(items, more, i, n - 1);
      assert (items + more)[i] == items[i] && (items + more)[n - 1] == items[n - 1];
    }
  }

  /** Every kept item is an entry of `Collect`. */
  lemma {:induction false} CollectHasKept(items: seq<Entry>, n: nat, i: nat)
    requires i <= n <= |items|
    ensures forall j :: i <= j < n && Kept(items, j, n) ==> items[j] in Collect(items, n, i)
    decreases n - i
  {
    if i < n {
      CollectHasKept(items, n, i + 1);
      var head := if Kept(items, i, n) then [items[i]] else [];
      assert Collect(items, n, i) == head + Collect(items, n, i + 1);
    }
  }

  /** `e` is item `j` for some `j` in `[i, n)` that survives the first `n` steps. */
  predicate KeptItem(items: seq<Entry>, n: nat, i: nat, e: Entry)
    requires i <= n <= |items|
  {
    exists j :: i <= j < n && Kept(items, j, n) && e == items[j]
  }

  /** Every entry of `Collect` is a kept item. */
  lemma {:induction false} CollectOnlyKept(items: seq<Entry>, n: nat, i: nat)
    requires i <= n <= |items|
    ensures forall e :: e in Collect(items, n, i) ==> KeptItem(items, n, i, e)
    decreases n - i
  {
    if i < n {
      CollectOnlyKept(items, n, i + 1);
      var rest := Collect(items, n, i + 1);
      forall e | e in rest ensures KeptItem(items, n, i, e) {
        KeptItemWiden(items, n, i, e);
      }
      if Kept(items, i, n) {
        assert KeptItem(items, n, i, items[i]);
        assert Collect(items, n, i) == [items[i]] + rest;
      } else {
        assert Collect(items, n, i) == rest;
      }
    }
  }

  lemma KeptItemWiden(items: seq<Entry>, n: nat, i: nat, e: Entry)
    requires i < n <= |items| && KeptItem(items, n, i + 1, e)
    ensures KeptItem(items, n, i, e)
  {
    var j :| i + 1 <= j < n && Kept(items, j, n) && e == items[j];
  }

  /** The sidecar keys of `ps[n]` that are present are deleted; deleting an absent one would change nothing. */
  function DeleteIfKey(ps: Params, form: seq<Entry>, s: string): seq<Entry> {
    if HasKey(ps, s) then Delete(form, s) else form
  }

  /**
   * Deleting only the sidecar keys that are present gives the same form as
   * deleting both, and the key being processed names no entry afterwards.
   */
  lemma SidecarDeletes(ps: Params, items: seq<Entry>, n: nat)
    requires n < |ps| && |items| == n
    requires forall j :: 0 <= j < n ==> items[j].0 == ps[j].0
    ensures var c, a, b := Collect(items, n, 0), Sidecar(ps[n].0, "name"), Sidecar(ps[n].0, "type");
      && DeleteIfKey(ps, DeleteIfKey(ps, c, a), b) == Delete(Delete(c, a), b)
      && ps[n].0 !in Names(Delete(Delete(c, a), b))
  {
    var c, a, b := Collect(items, n, 0), Sidecar(ps[n].0, "name"), Sidecar(ps[n].0, "type");
    CollectKeys(ps, items, n);
    DeleteMembers(c, a);
    DeleteMembers(Delete(c, a), b);
    if !HasKey(ps, a) {
      AbsentKeyKept(ps, c, n, a);
    }
    if !HasKey(ps, b) {
      AbsentKeyKept(ps, DeleteIfKey(ps, c, a), n, b);
    }
    forall e | e in Delete(Delete(c, a), b) ensures e.0 != ps[n].0 {
      var j :| 0 <= j < n && e.0 == ps[j].0;
    }
    assert ps[n].0 !in Names(Delete(Delete(c, a), b));
  }

  /** Every entry of the reference form after `n` items is named by one of the first `n` keys. */
  lemma CollectKeys(ps: Params, items: seq<Entry>, n: nat)
    requires n <= |ps| && |items| == n
    requires forall j :: 0 <= j < n ==> items[j].0 == ps[j].0
    ensures forall e :: e in Collect(items, n, 0) ==> exists j :: 0 <= j < n && e.0 == ps[j].0
  {
    CollectOnlyKept(items, n, 0);
    forall e | e in Collect(items, n, 0) ensures exists j :: 0 <= j < n && e.0 == ps[j].0 {
      assert KeptItem(items, n, 0, e);
      var j :| 0 <= j < n && Kept(items, j, n) && e == items[j];
    }
  }

  /** Deleting a name that is not a parameter key leaves a form of parameter keys unchanged. */
  lemma AbsentKeyKept(ps: Params, form: seq<Entry>, n: nat, s: string)
    requires n <= |ps| && !HasKey(ps, s)
    requires forall e :: e in form ==> exists j :: 0 <= j < n && e.0 == ps[j].0
    ensures Delete(form, s) == form
  {
    forall e | e in form ensures e.0 != s {
      var j :| 0 <= j < n && e.0 == ps[j].0;
    }
    DeleteAbsent(form, s);
  }

  /**
   * Processing item `n` deletes its sidecars from the form and then appends
   * it: the reference form after `n + 1` items.
   */
  lemma {:induction false} CollectStep(items: seq<Entry>, n: nat, i: nat)
    requires i <= n < |items|
    ensures Collect(items, n + 1, i) ==
      Delete(Delete(Collect(items, n, i), Sidecar(items[n].0, "name")), Sidecar(items[n].0, "type")) + [items[n]]
    decreases n - i
  {
    if i == n {
      CollectLast(items, n);
    } else {
      CollectStep(items, n, i + 1);
      CollectStepBack(items, n, i);
    }
  }

  /** The step from `i + 1` back to `i` of `CollectStep`. */
  lemma CollectStepBack(items: seq<Entry>, n: nat, i: nat)
    requires i < n < |items|
    requires Collect(items, n + 1, i + 1) ==
      Delete(Delete(Collect(items, n, i + 1), Sidecar(items[n].0, "name")), Sidecar(items[n].0, "type")) + [items[n]]
    ensures Collect(items, n + 1, i) ==
      Delete(Delete(Collect(items, n, i), Sidecar(items[n].0, "name")), Sidecar(items[n].0, "type")) + [items[n]]
  {
    var a, b := Sidecar(items[n].0, "name"), Sidecar(items[n].0, "type");
    var head := if Kept(items, i, n) then [items[i]] else [];
    var head' := if Kept(items, i, n + 1) then [items[i]] else [];
    var rest := Collect(items, n, i + 1);
    assert Collect(items, n, i) == head + rest;
    assert Collect(items, n + 1, i) == head' + Collect(items, n + 1, i + 1);
    KeptHead(items, n, i);
    DeleteTwiceAppend(head, rest, a, b);
    assert head' + (Delete(Delete(rest, a), b) + [items[n]]) == (head' + Delete(Delete(rest, a), b)) + [items[n]];
  }

  /** The last item is always kept. */
  lemma CollectLast(items: seq<Entry>, n: nat)
    requires n < |items|
    ensures Collect(items, n + 1, n) == Delete(Delete(Collect(items, n, n), Sidecar(items[n].0, "name")), Sidecar(items[n].0, "type")) + [items[n]]
  {
    assert Collect(items, n + 1, n) == [items[n]] + Collect(items, n + 1, n + 1);
  }

  /** The item at `i` survives one more step exactly when that step deletes no sidecar of it. */
  lemma KeptHead(items: seq<Entry>, n: nat, i: nat)
    requires i < n < |items|
    ensures var a, b := Sidecar(items[n].0, "name"), Sidecar(items[n].0, "type");
      Delete(Delete(if Kept(items, i, n) then [items[i]] else [], a), b) ==
      (if Kept(items, i, n + 1) then [items[i]] else [])
  {
  }

  /** Item `i` survives the first `n` steps exactly when none of the items after it, up to `n`, has it as a sidecar. */
  lemma {:induction false} KeptMeans(items: seq<Entry>, i: nat, n: nat)
    requires i < n <= |items|
    ensures Kept(items, i, n) <==> forall j :: i < j < n ==> !IsSidecarOf(items[i].0, items[j].0)
    decreases n - i
  {
    if n > i + 1 {
      KeptMeans(items, i, n - 1);
    }
  }

  lemma DeleteTwiceAppend(x: seq<Entry>, y: seq<Entry>, a: string, b: string)
    ensures Delete(Delete(x + y, a), b) == Delete(Delete(x, a), b) + Delete(Delete(y, a), b)
  {
    DeleteAppend(x, y, a);
    DeleteAppend(Delete(x, a), Delete(y, a), b);
  }

  // ----- what one attempt sends -----

  /** A later key has `ps[i].0` as one of its sidecars, so processing that key deletes it. */
  predicate Superseded(ps: Params, i: nat)
    requires i < |ps|
  {
    exists j :: i < j < |ps| && IsSidecarOf(ps[i].0, ps[j].0)
  }

  /** A stream whose reading fails. */
  predicate FailingStream(v: Value) {
    v.Stream? && v.failure.Some?
  }

  /** The items of the first `n` keys are those keys with their fields. */
  lemma {:induction false} ItemsEntries(ps: Params, fields: seq<Result<Part, Fault>>, n: nat)
    requires n <= |ps| == |fields| && ItemsUpTo(ps, fields, n).Ok?
    ensures forall j :: 0 <= j < n ==> fields[j].Ok? && ItemsUpTo(ps, fields, n).value[j] == (ps[j].0, fields[j].value)
  {
    if n > 0 {
      ItemsEntries(ps, fields, n - 1);
    }
  }

  /**
   * The items of the first `n` keys fail exactly when one of their fields
   * fails, and then with the error of the first failing field.
   */
  lemma {:induction false} ItemsFailure(ps: Params, fields: seq<Result<Part, Fault>>, n: nat)
    requires n <= |ps| == |fields|
    ensures ItemsUpTo(ps, fields, n).Err? <==> exists j :: 0 <= j < n && fields[j].Err?
    ensures ItemsUpTo(ps, fields, n).Err? ==>
      (exists j :: 0 <= j < n && fields[j] == Err(ItemsUpTo(ps, fields, n).error) &&
        (forall j' :: 0 <= j' < j ==> fields[j'].Ok?))
  {
    if n > 0 {
      ItemsFailure(ps, fields, n - 1);
    }
  }

  /**
   * The parameters are sent as JSON, unchanged, exactly when none of them is
   * file-like; otherwise a multipart form is sent, or the attempt fails.
   */
  lemma JsonUnlessFileLike(ps: Params)
    ensures Encoded(ps) == Ok(JsonBody(ps)) <==> !AnyFileLike(ps)
    ensures Encoded(ps).Ok? && Encoded(ps).value.FormBody? <==> AnyFileLike(ps) && Encoded(ps).Ok?
  {
  }

  /**
   * An attempt fails exactly when a top-level value is a stream that fails,
   * and it fails with the error of the first one in key order.
   */
  lemma EncodedFailure(ps: Params)
    ensures Encoded(ps).Err? <==> exists i :: 0 <= i < |ps| && FailingStream(ps[i].1)
    ensures Encoded(ps).Err? ==>
      (exists i :: 0 <= i < |ps| && FailingStream(ps[i].1) && ps[i].1.failure.value == Encoded(ps).error &&
        (forall j :: 0 <= j < i ==> !FailingStream(ps[j].1)))
  {
    if !AnyFileLike(ps) {
      forall i | 0 <= i < |ps| ensures !FailingStream(ps[i].1) {
        assert !ps[i].1.IsFileLike();
      }
    } else {
      MultipartFailure(ps);
    }
  }

  lemma MultipartFailure(ps: Params)
    ensures Multipart(ps).Err? <==> exists i :: 0 <= i < |ps| && FailingStream(ps[i].1)
    ensures Multipart(ps).Err? ==>
      (exists i :: 0 <= i < |ps| && FailingStream(ps[i].1) && ps[i].1.failure.value == Multipart(ps).error &&
        (forall j :: 0 <= j < i ==> !FailingStream(ps[j].1)))
  {
    var fs := Fields(ps);
    ItemsFailure(ps, fs, |ps|);
    assert forall i :: 0 <= i < |ps| ==> (fs[i].Err? <==> FailingStream(ps[i].1));
    if Multipart(ps).Err? {
      var i :| 0 <= i < |ps| && fs[i] == Err(Multipart(ps).error) && (forall j' :: 0 <= j' < i ==> fs[j'].Ok?);
      assert FailingStream(ps[i].1) && ps[i].1.failure.value == Multipart(ps).error;
    }
  }

  /** No two keys share a name, so the items' keys are distinct too. */
  lemma ItemsDistinct(ps: Params, fields: seq<Result<Part, Fault>>, items: seq<Entry>)
    requires |fields| == |ps| && ItemsUpTo(ps, fields, |ps|) == Ok(items)
    ensures |items| == |ps|
    ensures forall j :: 0 <= j < |ps| ==> items[j].0 == ps[j].0
    ensures forall i, j :: 0 <= i < j < |items| ==> items[i].0 != items[j].0
  {
    ItemsKeys(ps, fields, |ps|);
  }

  /** `Collect` over items with distinct keys has unique names. */
  lemma {:induction false} CollectUnique(items: seq<Entry>, n: nat, i: nat)
    requires i <= n <= |items|
    requires forall a, b :: 0 <= a < b < n ==> items[a].0 != items[b].0
    ensures UniqueNames(Collect(items, n, i))
    decreases n - i
  {
    if i < n {
      CollectUnique(items, n, i + 1);
      var rest := Collect(items, n, i + 1);
      if Kept(items, i, n) {
        CollectOnlyKept(items, n, i + 1);
        forall e | e in rest ensures e.0 != items[i].0 {
          assert KeptItem(items, n, i + 1, e);
        }
        UniqueCons(items[i], rest);
        assert Collect(items, n, i) == [items[i]] + rest;
      } else {
        assert Collect(items, n, i) == rest;
      }
    }
  }

  /** The items and reference form behind a multipart body. */
  lemma FormOf(ps: Params, form: seq<Entry>) returns (items: seq<Entry>)
    requires Encoded(ps) == Ok(FormBody(form))
    ensures AnyFileLike(ps)
    ensures ItemsUpTo(ps, Fields(ps), |ps|) == Ok(items) && form == Collect(items, |ps|, 0)
    ensures forall j :: 0 <= j < |ps| ==> items[j].0 == ps[j].0
    ensures forall j :: 0 <= j < |ps| ==> FieldAt(ps, j).Ok? && items[j] == (ps[j].0, FieldAt(ps, j).value)
    ensures forall j :: 0 <= j < |ps| ==> (Kept(items, j, |ps|) <==> !Superseded(ps, j))
  {
    items := ItemsUpTo(ps, Fields(ps), |ps|).value;
    ItemsDistinct(ps, Fields(ps), items);
    ItemsEntries(ps, Fields(ps), |ps|);
    forall j | 0 <= j < |ps| ensures Kept(items, j, |ps|) <==> !Superseded(ps, j) {
      KeptMeans(items, j, |ps|);
    }
  }

  /** The names of the multipart form are unique: `set` leaves at most one field per key. */
  lemma FormUnique(ps: Params, form: seq<Entry>)
    requires Encoded(ps) == Ok(FormBody(form))
    ensures UniqueNames(form)
  {
    var items := FormOf(ps, form);
    ItemsDistinct(ps, Fields(ps), items);
    CollectUnique(items, |ps|, 0);
  }

  /** The multipart form holds each key that no later key has as a sidecar, with that key's field. */
  lemma FormHasField(ps: Params, form: seq<Entry>, i: nat)
    requires Encoded(ps) == Ok(FormBody(form)) && i < |ps| && !Superseded(ps, i)
    ensures FieldAt(ps, i).Ok? && (ps[i].0, FieldAt(ps, i).value) in form
  {
    var items := FormOf(ps, form);
    CollectHasKept(items, |ps|, 0);
  }

  /** A key that a later key has as a sidecar (`k$name` before `k`) names no entry of the multipart form. */
  lemma FormDropsSuperseded(ps: Params, form: seq<Entry>, i: nat)
    requires Encoded(ps) == Ok(FormBody(form)) && i < |ps| && Superseded(ps, i)
    ensures ps[i].0 !in Names(form)
  {
    var items := FormOf(ps, form);
    ItemsDistinct(ps, Fields(ps), items);
    CollectOnlyKept(items, |ps|, 0);
    forall e | e in form ensures e.0 != ps[i].0 {
      assert KeptItem(items, |ps|, 0, e);
      var j :| 0 <= j < |ps| && Kept(items, j, |ps|) && e == items[j];
    }
    assert ps[i].0 !in Names(form);
  }

  /** Every entry of the multipart form is some key that no later key has as a sidecar, with its field. */
  lemma FormOnlyFields(ps: Params, form: seq<Entry>)
    requires Encoded(ps) == Ok(FormBody(form))
    ensures forall e :: e in form ==> exists i :: 0 <= i < |ps| && !Superseded(ps, i) && FieldAt(ps, i).Ok? && e == (ps[i].0, FieldAt(ps, i).value)
  {
    var items := FormOf(ps, form);
    CollectOnlyKept(items, |ps|, 0);
    forall e | e in form ensures exists i :: 0 <= i < |ps| && !Superseded(ps, i) && FieldAt(ps, i).Ok? && e == (ps[i].0, FieldAt(ps, i).value) {
      assert KeptItem(items, |ps|, 0, e);
    }
  }

  // ----- the field each kind of value becomes -----

  /**
   * A Blob or File with no truthy `k$name` and no truthy `k$type` is handed
   * to `set` as it is: a File is stored unchanged, and a Blob that is not a
   * File is stored as a File named `blob` with the same bytes and type.
   */
  lemma BlobSetDirectly(ps: Params, form: seq<Entry>, i: nat)
    requires Encoded(ps) == Ok(FormBody(form)) && i < |ps| && !Superseded(ps, i)
    requires ps[i].1.IsBlobLike()
    requires !Truthy(MetaOf(ps, ps[i].0).name) && !Truthy(MetaOf(ps, ps[i].0).mime)
    ensures ps[i].1.File? ==> (ps[i].0, Original(ps[i].1)) in form
    ensures ps[i].1.Blob? ==> (ps[i].0, Made(Upload(ps[i].1.bytes, Scalar(Str("blob")), Scalar(Str(ps[i].1.mime))))) in form
  {
    FormHasField(ps, form, i);
  }

  /**
   * Raw binary data, and a Blob or File with a truthy sidecar, is sent as a new
   * File of the same bytes named `meta.name || value.name` with type
   * `meta.type || value.type`.
   */
  lemma BinaryWrapped(ps: Params, form: seq<Entry>, i: nat)
    requires Encoded(ps) == Ok(FormBody(form)) && i < |ps| && !Superseded(ps, i)
    requires ps[i].1.Binary? || (ps[i].1.IsBlobLike() && (Truthy(MetaOf(ps, ps[i].0).name) || Truthy(MetaOf(ps, ps[i].0).mime)))
    ensures var v, meta := ps[i].1, MetaOf(ps, ps[i].0);
      (ps[i].0, Made(Upload(v.bytes, Or(meta.name, OwnName(v)), Or(meta.mime, OwnType(v))))) in form
  {
    FormHasField(ps, form, i);
  }

  /**
   * A stream is sent as a File of all its chunks in order, named by a truthy
   * `k$name` or else by the basename of the stream's path, with type `k$type`;
   * a multipart body exists only if the stream did not fail.
   */
  lemma StreamMaterialized(ps: Params, form: seq<Entry>, i: nat)
    requires Encoded(ps) == Ok(FormBody(form)) && i < |ps| && !Superseded(ps, i)
    requires ps[i].1.Stream?
    ensures ps[i].1.failure.None?
    ensures var v, meta := ps[i].1, MetaOf(ps, ps[i].0);
      (ps[i].0, Made(Upload(Concat(v.chunks), Or(meta.name, PathName(v.path)), meta.mime))) in form
  {
    FormHasField(ps, form, i);
  }

  /** Any other value whose `typeof` is `object`, `null` and arrays included, is sent as its JSON text. */
  lemma ObjectAsJson(ps: Params, form: seq<Entry>, i: nat)
    requires Encoded(ps) == Ok(FormBody(form)) && i < |ps| && !Superseded(ps, i)
    requires ps[i].1.Null? || ps[i].1.Structured?
    ensures (ps[i].0, Text(JsonText(ps[i].1))) in form
  {
    FormHasField(ps, form, i);
  }

  /** A primitive value is sent as its string form; a sidecar key met after its base key is one of these. */
  lemma ScalarAsText(ps: Params, form: seq<Entry>, i: nat)
    requires Encoded(ps) == Ok(FormBody(form)) && i < |ps| && !Superseded(ps, i)
    requires ps[i].1.Scalar?
    ensures (ps[i].0, Text(ScalarText(ps[i].1.prim))) in form
  {
    FormHasField(ps, form, i);
  }

  /** The basename of `dir/name` is `name`, whatever the directory. */
  lemma BasenameOfJoin(dir: string, name: string)
    requires name != [] && '/' !in name
    ensures Basename(dir + "/" + name) == name
  {
    var p := dir + "/" + name;
    assert p[|p| - 1] == name[|name| - 1];
    assert StripTrailingSlashes(p) == p;
    LastSegmentAfterSlash(dir + "/", name);
  }

  lemma {:induction false} LastSegmentAfterSlash(front: string, name: string)
    requires front != [] && front[|front| - 1] == '/' && '/' !in name
    ensures LastSegment(front + name) == name
  {
    if name == [] {
      assert front + name == front;
    } else {
      var init := name[..|name| - 1];
      assert (front + name)[..|front + name| - 1] == front + init;
      LastSegmentAfterSlash(front, init);
      assert init + [name[|name| - 1]] == name;
    }
  }

  // ----- the two orders of a base key and its sidecar -----

  /** A key, its `$name` sidecar and its `$type` sidecar are three different names, and neither sidecar has sidecars among them. */
  lemma SidecarNamesDiffer(k: string)
    ensures Sidecar(k, "name") != k && Sidecar(k, "type") != k && Sidecar(k, "name") != Sidecar(k, "type")
    ensures !IsSidecarOf(k, Sidecar(k, "name")) && !IsSidecarOf(k, Sidecar(k, "type"))
  {
    assert |Sidecar(k, "name")| == |k| + 5 == |Sidecar(k, "type")|;
    assert Sidecar(k, "name")[|k| + 1] == 'n' && Sidecar(k, "type")[|k| + 1] == 't';
  }

  /**
   * A sidecar after its File, as in `sendDocument({document, document$name})`:
   * the File is sent renamed, keeping its own type, and the sidecar is also
   * sent as a text field of its own.
   */
  lemma SidecarAfterBase(k: string, bytes: Bytes, fileName: string, mime: string, newName: string, form: seq<Entry>)
    requires newName != ""
    requires Encoded([(k, File(bytes, fileName, mime)), (Sidecar(k, "name"), Scalar(Str(newName)))]) == Ok(FormBody(form))
    ensures (k, Made(Upload(bytes, Scalar(Str(newName)), Scalar(Str(mime))))) in form
    ensures (Sidecar(k, "name"), Text(newName)) in form
  {
    SidecarNamesDiffer(k);
    var ps: Params := [(k, File(bytes, fileName, mime)), (Sidecar(k, "name"), Scalar(Str(newName)))];
    GetDistinct(ps, 1);
    assert !HasKey(ps, Sidecar(k, "type"));
    assert MetaOf(ps, k) == Meta(Scalar(Str(newName)), Undef);
    assert !Superseded(ps, 0) && !Superseded(ps, 1);
    BinaryWrapped(ps, form, 0);
    ScalarAsText(ps, form, 1);
  }

  /**
   * A sidecar before its Blob: it still names the file, but processing the
   * Blob deletes the sidecar's text field, so the form has only the file.
   */
  lemma SidecarBeforeBase(k: string, bytes: Bytes, mime: string, newName: string, form: seq<Entry>)
    requires newName != ""
    requires Encoded([(Sidecar(k, "name"), Scalar(Str(newName))), (k, Blob(bytes, mime))]) == Ok(FormBody(form))
    ensures (k, Made(Upload(bytes, Scalar(Str(newName)), Scalar(Str(mime))))) in form
    ensures Sidecar(k, "name") !in Names(form)
  {
    SidecarNamesDiffer(k);
    var ps: Params := [(Sidecar(k, "name"), Scalar(Str(newName))), (k, Blob(bytes, mime))];
    GetDistinct(ps, 0);
    assert !HasKey(ps, Sidecar(k, "type"));
    assert MetaOf(ps, k) == Meta(Scalar(Str(newName)), Undef);
    assert IsSidecarOf(ps[0].0, ps[1].0);
    assert !Superseded(ps, 1);
    BinaryWrapped(ps, form, 1);
    FormDropsSuperseded(ps, form, 0);
  }
}
