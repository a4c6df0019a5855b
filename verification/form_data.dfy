/**
 * The multipart form body: an ordered list of (name, part) entries, changed
 * only through `set` and `delete` as the FormData interface defines them.
 */
module FormData {
  import opened Values

  /**
   * A file built by `new File([value], name, { type })`. The name and type are
   * the JavaScript values handed to the constructor.
   */
  datatype Upload = Upload(bytes: Bytes, name: Value, mime: Value)

  /** What one form field holds: text, a File passed through as it was, or a newly built file. */
  datatype Part = Text(text: string) | Original(blob: Value) | Made(file: Upload)

  type Entry = (string, Part)

  /**
   * What `set` stores for a blob passed to it: a File as it is, and a Blob
   * that is not a File as a new File named `blob` with the same bytes and type.
   */
  function BlobEntry(v: Value): Part
    requires v.Blob? || v.File?
  {
    if v.File? then Original(v) else Made(Upload(v.bytes, Scalar(Str("blob")), Scalar(Str(v.mime))))
  }

  /** The entry names of a form, in order. */
  function Names(form: seq<Entry>): (ks: seq<string>)
    ensures |ks| == |form|
    ensures forall i :: 0 <= i < |form| ==> ks[i] == form[i].0
  {
    if form == [] then [] else [form[0].0] + Names(form[1..])
  }

  /** No name occurs twice. */
  predicate UniqueNames(form: seq<Entry>) {
    forall i, j :: 0 <= i < j < |form| ==> form[i].0 != form[j].0
  }

  /** `formData.delete(k)`: remove every entry named `k`, keeping the others in order. */
  function Delete(form: seq<Entry>, k: string): (r: seq<Entry>)
    ensures |r| <= |form|
  {
    if form == [] then []
    else if form[0].0 == k then Delete(form[1..], k)
    else [form[0]] + Delete(form[1..], k)
  }

  /** The first entry named `k` becomes `(k, p)`; every later entry named `k` is removed. */
  function ReplaceFirst(form: seq<Entry>, k: string, p: Part): seq<Entry>
    requires k in Names(form)
  {
    if form[0].0 == k then [(k, p)] + Delete(form[1..], k)
    else [form[0]] + ReplaceFirst(form[1..], k, p)
  }

  /**
   * `formData.set(k, p)`: replace the first entry named `k` and drop the
   * others, or append `(k, p)` when there is none.
   */
  function Set(form: seq<Entry>, k: string, p: Part): seq<Entry> {
    if k in Names(form) then ReplaceFirst(form, k, p) else form + [(k, p)]
  }

  /** `delete` removes exactly the entries named `k`. */
  lemma {:induction false} DeleteMembers(form: seq<Entry>, k: string)
    ensures forall e :: e in Delete(form, k) <==> e in form && e.0 != k
  {
    if form != [] {
      DeleteMembers(form[1..], k);
      assert forall e :: e in form <==> e == form[0] || e in form[1..];
    }
  }

  /** Deleting a name no entry has changes nothing. */
  lemma {:induction false} DeleteAbsent(form: seq<Entry>, k: string)
    requires forall e :: e in form ==> e.0 != k
    ensures Delete(form, k) == form
  {
    if form != [] {
      assert form[0] in form;
      assert forall e :: e in form[1..] ==> e in form;
      DeleteAbsent(form[1..], k);
      assert [form[0]] + form[1..] == form;
    }
  }

  /**
   * `set` leaves every entry with another name as it was, holds `(k, p)`, and
   * holds no other entry named `k`; on a form without `k` it appends.
   */
  lemma SetSemantics(form: seq<Entry>, k: string, p: Part)
    ensures var r := Set(form, k, p);
      && (forall e :: e in r && e.0 != k <==> e in form && e.0 != k)
      && (k, p) in r
      && (forall i :: 0 <= i < |r| && r[i].0 == k ==> r[i].1 == p)
      && (forall i, j :: 0 <= i < j < |r| ==> r[i].0 != k || r[j].0 != k)
      && (k !in Names(form) ==> r == form + [(k, p)])
  {
    if k in Names(form) {
      ReplaceFirstMembers(form, k, p);
      ReplaceFirstOnce(form, k, p);
    } else {
      var r := form + [(k, p)];
      assert r[|form|] == (k, p);
      assert forall i :: 0 <= i < |form| ==> Names(form)[i] != k;
    }
  }

  /** Replacing the first entry named `k` keeps every entry with another name and holds `(k, p)`. */
  lemma {:induction false} ReplaceFirstMembers(form: seq<Entry>, k: string, p: Part)
    requires k in Names(form)
    ensures var r := ReplaceFirst(form, k, p);
      && (forall e :: e in r && e.0 != k <==> e in form && e.0 != k)
      && (k, p) in r
  {
    var r := ReplaceFirst(form, k, p);
    assert forall e :: e in form <==> e == form[0] || e in form[1..];
    if form[0].0 == k {
      DeleteMembers(form[1..], k);
      assert forall e :: e in r <==> e == (k, p) || e in Delete(form[1..], k);
    } else {
      var x :| 0 <= x < |form| && Names(form)[x] == k;
      assert x > 0 && Names(form[1..])[x - 1] == k;
      ReplaceFirstMembers(form[1..], k, p);
      assert forall e :: e in r <==> e == form[0] || e in ReplaceFirst(form[1..], k, p);
    }
  }

  /** Every entry of `r` named `k` holds `p`, and at most one is named `k`. */
  predicate AtMostOnceWith(r: seq<Entry>, k: string, p: Part) {
    && (forall i :: 0 <= i < |r| && r[i].0 == k ==> r[i].1 == p)
    && (forall i, j :: 0 <= i < j < |r| ==> r[i].0 != k || r[j].0 != k)
  }

  /** After replacing the first entry named `k`, exactly one entry is named `k`, and it holds `p`. */
  lemma {:induction false} ReplaceFirstOnce(form: seq<Entry>, k: string, p: Part)
    requires k in Names(form)
    ensures AtMostOnceWith(ReplaceFirst(form, k, p), k, p)
  {
    var r := ReplaceFirst(form, k, p);
    if form[0].0 == k {
      DeleteMembers(form[1..], k);
      OnceAtFront(Delete(form[1..], k), k, p);
    } else {
      var x :| 0 <= x < |form| && Names(form)[x] == k;
      assert x > 0 && Names(form[1..])[x - 1] == k;
      ReplaceFirstOnce(form[1..], k, p);
      var rest := ReplaceFirst(form[1..], k, p);
      assert r == [form[0]] + rest;
      forall i | 0 < i < |r| ensures r[i] == rest[i - 1] {
      }
    }
  }

  lemma OnceAtFront(rest: seq<Entry>, k: string, p: Part)
    requires forall e :: e in rest ==> e.0 != k
    ensures AtMostOnceWith([(k, p)] + rest, k, p)
  {
    var r := [(k, p)] + rest;
    forall i | 0 < i < |r| ensures r[i].0 != k {
      assert r[i] == rest[i - 1];
      assert rest[i - 1] in rest;
    }
  }

  /** `delete` distributes over the two halves of a form. */
  lemma {:induction false} DeleteAppend(a: seq<Entry>, b: seq<Entry>, k: string)
    ensures Delete(a + b, k) == Delete(a, k) + Delete(b, k)
  {
    if a != [] {
      assert (a + b)[0] == a[0] && (a + b)[1..] == a[1..] + b;
      DeleteAppend(a[1..], b, k);
      if a[0].0 != k {
        calc {
          Delete(a + b, k);
          [a[0]] + Delete(a[1..] + b, k);
          [a[0]] + (Delete(a[1..], k) + Delete(b, k));
          ([a[0]] + Delete(a[1..], k)) + Delete(b, k);
        }
      }
    } else {
      assert a + b == b;
    }
  }

  /** `delete` keeps names unique. */
  lemma {:induction false} DeleteKeepsUnique(form: seq<Entry>, k: string)
    requires UniqueNames(form)
    ensures UniqueNames(Delete(form, k))
  {
    if form != [] {
      DeleteKeepsUnique(form[1..], k);
      if form[0].0 != k {
        var rest := Delete(form[1..], k);
        DeleteMembers(form[1..], k);
        forall e | e in rest ensures e.0 != form[0].0 {
          assert e in form[1..];
        }
      }
    }
  }

  /** `set` keeps names unique: a form built only with `set` never holds a name twice. */
  lemma SetKeepsUnique(form: seq<Entry>, k: string, p: Part)
    requires UniqueNames(form)
    ensures UniqueNames(Set(form, k, p))
  {
    if k in Names(form) {
      ReplaceFirstKeepsUnique(form, k, p);
    } else {
      SetSemantics(form, k, p);
    }
  }

  lemma {:induction false} ReplaceFirstKeepsUnique(form: seq<Entry>, k: string, p: Part)
    requires UniqueNames(form)
    requires k in Names(form)
    ensures UniqueNames(ReplaceFirst(form, k, p))
  {
    if form[0].0 == k {
      DeleteKeepsUnique(form[1..], k);
      DeleteMembers(form[1..], k);
      UniqueCons((k, p), Delete(form[1..], k));
    } else {
      var x :| 0 <= x < |form| && Names(form)[x] == k;
      assert x > 0 && Names(form[1..])[x - 1] == k;
      ReplaceFirstKeepsUnique(form[1..], k, p);
      ReplaceFirstMembers(form[1..], k, p);
      var rest := ReplaceFirst(form[1..], k, p);
      forall e | e in rest ensures e.0 != form[0].0 {
        if e.0 != k {
          assert e in form[1..];
        }
      }
      UniqueCons(form[0], rest);
    }
  }

  /** Putting a new first entry in front of a form with unique names keeps them unique. */
  lemma UniqueCons(x: Entry, rest: seq<Entry>)
    requires UniqueNames(rest)
    requires forall e :: e in rest ==> e.0 != x.0
    ensures UniqueNames([x] + rest)
  {
    forall i, j | 0 <= i < j < |[x] + rest| ensures ([x] + rest)[i].0 != ([x] + rest)[j].0 {
      if i == 0 {
        assert ([x] + rest)[j] == rest[j - 1];
        assert rest[j - 1] in rest;
      } else {
        assert ([x] + rest)[i] == rest[i - 1] && ([x] + rest)[j] == rest[j - 1];
      }
    }
  }
}
