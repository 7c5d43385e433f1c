/** What the two JSON repositories share: the file's validated contents,
    upsert by key and first-match lookup. */
module JsonStore {
  import opened Wrappers

  /** What `TypeAdapter(list[...]).validate_json` makes of the file: a list
      of records, or the validation errors of content that does not
      validate. Dumping a list and validating it back gives the list. */
  datatype Contents<T> = Records(records: seq<T>) | Invalid(errors: string)

  predicate HasKey<T, K(==)>(records: seq<T>, k: K, key: T -> K) {
    exists i :: 0 <= i < |records| && key(records[i]) == k
  }

  /** The list `add(r)` writes: when some record has `r`'s key, every such
      record replaced by `r` in place; otherwise `r` appended. */
  function Upsert<T, K(==)>(records: seq<T>, r: T, key: T -> K): seq<T> {
    if HasKey(records, key(r), key) then
      seq(|records|, i requires 0 <= i < |records| => if key(records[i]) != key(r) then records[i] else r)
    else records + [r]
  }

  /** `next(filter(lambda p: key(p) == k, records), None)`. */
  function FirstMatch<T, K(==)>(records: seq<T>, k: K, key: T -> K): (r: Option<T>)
    ensures r.None? <==> !HasKey(records, k, key)
  {
    if records == [] then None
    else if key(records[0]) == k then Some(records[0])
    else
      assert forall i :: 1 <= i < |records| ==> records[i] == records[1..][i - 1];
      assert HasKey(records, k, key) ==> HasKey(records[1..], k, key);
      FirstMatch(records[1..], k, key)
  }

  /** The match found is the first record with the key. */
  lemma {:induction false} FirstMatchIsFirst<T, K>(records: seq<T>, k: K, key: T -> K)
    requires HasKey(records, k, key)
    ensures exists i :: 0 <= i < |records| && FirstMatch(records, k, key) == Some(records[i]) &&
                        key(records[i]) == k && forall j :: 0 <= j < i ==> key(records[j]) != k
  {
    if key(records[0]) != k {
      assert HasKey(records[1..], k, key) by {
        var i :| 0 <= i < |records| && key(records[i]) == k;
        assert records[1..][i - 1] == records[i];
      }
      FirstMatchIsFirst(records[1..], k, key);
      var i :| 0 <= i < |records[1..]| && FirstMatch(records[1..], k, key) == Some(records[1..][i]) &&
               key(records[1..][i]) == k && forall j :: 0 <= j < i ==> key(records[1..][j]) != k;
      assert forall j :: 1 <= j < i + 1 ==> records[j] == records[1..][j - 1];
      assert FirstMatch(records, k, key) == Some(records[i + 1]);
    } else {
      assert FirstMatch(records, k, key) == Some(records[0]);
    }
  }

  /** Adding a record whose key is present replaces the records with that
      key in place and keeps the length and every other record. */
  lemma UpsertExisting<T, K>(records: seq<T>, r: T, key: T -> K)
    requires HasKey(records, key(r), key)
    ensures |Upsert(records, r, key)| == |records|
    ensures forall i :: 0 <= i < |records| ==>
              Upsert(records, r, key)[i] == if key(records[i]) == key(r) then r else records[i]
  {
  }

  /** Adding a record with a new key appends it. */
  lemma UpsertNew<T, K>(records: seq<T>, r: T, key: T -> K)
    requires !HasKey(records, key(r), key)
    ensures Upsert(records, r, key) == records + [r]
  {
  }

  /** After adding `r`, looking up its key finds `r`. */
  lemma UpsertThenFind<T, K>(records: seq<T>, r: T, key: T -> K)
    ensures FirstMatch(Upsert(records, r, key), key(r), key) == Some(r)
  {
    var u := Upsert(records, r, key);
    if HasKey(records, key(r), key) {
      var i :| 0 <= i < |records| && key(records[i]) == key(r);
      assert key(u[i]) == key(r);
      FirstMatchIsFirst(u, key(r), key);
    } else {
      assert key(u[|records|]) == key(r);
      FirstMatchIsFirst(u, key(r), key);
    }
  }

  /** Adding `r` changes no lookup of another key. */
  lemma UpsertKeepsOthers<T, K>(records: seq<T>, r: T, key: T -> K, k: K)
    requires k != key(r)
    ensures FirstMatch(Upsert(records, r, key), k, key) == FirstMatch(records, k, key)
  {
    var u := Upsert(records, r, key);
    assert forall i :: 0 <= i < |records| && key(records[i]) == k ==> u[i] == records[i];
    assert forall i :: 0 <= i < |u| && key(u[i]) == k ==> i < |records| && u[i] == records[i];
    if HasKey(records, k, key) {
      FirstMatchIsFirst(records, k, key);
      FirstMatchIsFirst(u, k, key);
    }
  }

  /** Adding the same record twice is adding it once. */
  lemma UpsertIdempotent<T, K>(records: seq<T>, r: T, key: T -> K)
    ensures Upsert(Upsert(records, r, key), r, key) == Upsert(records, r, key)
  {
    var u := Upsert(records, r, key);
    if !HasKey(records, key(r), key) {
      assert key(u[|records|]) == key(r);
    }
  }

  /** Keys stay unique when they were. */
  lemma UpsertKeepsKeysUnique<T, K>(records: seq<T>, r: T, key: T -> K)
    requires forall i, j :: 0 <= i < j < |records| ==> key(records[i]) != key(records[j])
    ensures var u := Upsert(records, r, key);
            forall i, j :: 0 <= i < j < |u| ==> key(u[i]) != key(u[j])
  {
  }
}
