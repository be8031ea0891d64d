/**
 * JSON values as Ruby's JSON.parse returns them. An object is a Ruby Hash:
 * an insertion-ordered list of entries, read with Hash#[], written with
 * Hash#[]= and Hash#delete, renamed with Hash#transform_keys.
 */
module Json {

  datatype Json =
    | JNull
    | JBool(b: bool)
    | JInt(i: int)
    | JString(s: string)
    | JArray(items: seq<Json>)
    | JObject(fields: seq<(string, Json)>)

  type Fields = seq<(string, Json)>

  /** Ruby truthiness: only nil and false are falsy. */
  predicate Truthy(v: Json) {
    v != JNull && v != JBool(false)
  }

  function Keys(fs: Fields): (ks: seq<string>)
    ensures |ks| == |fs|
  {
    if |fs| == 0 then [] else [fs[0].0] + Keys(fs[1..])
  }

  /** No two entries share a key, as in every Ruby Hash. */
  predicate UniqueKeys(fs: Fields) {
    |fs| == 0 || (fs[0].0 !in Keys(fs[1..]) && UniqueKeys(fs[1..]))
  }

  /** Hash#[]: the value stored under k, or nil when k is absent. */
  function Get(fs: Fields, k: string): (v: Json)
    ensures k !in Keys(fs) ==> v == JNull
  {
    if |fs| == 0 then JNull else if fs[0].0 == k then fs[0].1 else Get(fs[1..], k)
  }

  /** The position of the first entry under k. */
  function KeyIndex(fs: Fields, k: string): (j: nat)
    requires k in Keys(fs)
    ensures j < |fs| && fs[j].0 == k && Get(fs, k) == fs[j].1
    ensures forall i :: 0 <= i < j ==> fs[i].0 != k
  {
    if fs[0].0 == k then 0 else 1 + KeyIndex(fs[1..], k)
  }

  /** Hash#[]=: an existing entry keeps its place and takes the new value; a new key is appended. */
  function Put(fs: Fields, k: string, v: Json): (r: Fields)
    ensures Get(r, k) == v
    ensures forall k' :: k' != k ==> Get(r, k') == Get(fs, k')
    ensures forall k' :: k' in Keys(r) <==> k' in Keys(fs) || k' == k
    ensures k !in Keys(fs) ==> r == fs + [(k, v)]
    ensures k in Keys(fs) ==> |r| == |fs|
    ensures forall p :: p in r ==> p in fs || p == (k, v)
    ensures UniqueKeys(fs) ==> UniqueKeys(r)
  {
    if |fs| == 0 then [(k, v)]
    else if fs[0].0 == k then [(k, v)] + fs[1..]
    else [fs[0]] + Put(fs[1..], k, v)
  }

  /** Storing under a key that is present replaces that entry where it stands and leaves every other entry as it was. */
  lemma {:induction false} PutInPlace(fs: Fields, k: string, v: Json)
    requires k in Keys(fs)
    ensures Put(fs, k, v) == fs[KeyIndex(fs, k) := (k, v)]
  {
    if fs[0].0 != k {
      var rest := fs[1..];
      assert k in Keys(rest);
      PutInPlace(rest, k, v);
      var j := KeyIndex(rest, k);
      assert KeyIndex(fs, k) == j + 1;
      assert Put(fs, k, v) == [fs[0]] + Put(rest, k, v);
      ConsUpdate(fs, j, (k, v));
    } else {
      ConsUpdate(fs, -1, (k, v));
    }
  }

  /** Updating the tail of a non-empty list at j updates the list at j + 1; j = -1 replaces the head. */
  lemma ConsUpdate(fs: Fields, j: int, p: (string, Json))
    requires |fs| > 0 && -1 <= j < |fs| - 1
    ensures j >= 0 ==> [fs[0]] + fs[1..][j := p] == fs[j + 1 := p]
    ensures j == -1 ==> [p] + fs[1..] == fs[0 := p]
  {
  }

  /** Hash#delete: the entry under k is removed, the others keep their order. */
  function Delete(fs: Fields, k: string): (r: Fields)
    ensures k !in Keys(r)
    ensures forall k' :: k' != k ==> Get(r, k') == Get(fs, k')
    ensures forall k' :: k' != k ==> (k' in Keys(r) <==> k' in Keys(fs))
    ensures UniqueKeys(fs) ==> UniqueKeys(r)
  {
    if |fs| == 0 then []
    else if fs[0].0 == k then Delete(fs[1..], k)
    else [fs[0]] + Delete(fs[1..], k)
  }

  /**
   * Hash#transform_keys: the entries are stored, in order, into a new Hash
   * under f of their key, so when two keys are renamed alike the later
   * entry's value wins.
   */
  function TransformKeys(fs: Fields, f: string -> string): (r: Fields)
    ensures UniqueKeys(r)
  {
    if |fs| == 0 then []
    else
      var n := |fs| - 1;
      Put(TransformKeys(fs[..n], f), f(fs[n].0), fs[n].1)
  }

  /** The keys of the renamed hash are exactly the renamed old keys. */
  lemma {:induction false} TransformKeysKeys(fs: Fields, f: string -> string)
    ensures forall k :: k in Keys(TransformKeys(fs, f)) <==> exists i :: 0 <= i < |fs| && f(fs[i].0) == k
  {
    if |fs| > 0 {
      var n := |fs| - 1;
      TransformKeysKeys(fs[..n], f);
      assert forall i :: 0 <= i < n ==> fs[..n][i] == fs[i];
    }
  }

  /** Each entry of the renamed hash is an old entry with its key renamed. */
  lemma {:induction false} TransformKeysEntries(fs: Fields, f: string -> string)
    ensures forall p :: p in TransformKeys(fs, f) ==> exists i :: 0 <= i < |fs| && p == (f(fs[i].0), fs[i].1)
  {
    if |fs| > 0 {
      var n := |fs| - 1;
      TransformKeysEntries(fs[..n], f);
      assert forall i :: 0 <= i < n ==> fs[..n][i] == fs[i];
    }
  }

  /** Each entry with its key renamed, the fold without collisions. */
  function Rename(fs: Fields, f: string -> string): (r: Fields)
    ensures |r| == |fs|
  {
    seq(|fs|, i requires 0 <= i < |fs| => (f(fs[i].0), fs[i].1))
  }

  /** Each entry with its value mapped. */
  function MapValues(fs: Fields, g: Json -> Json): (r: Fields)
    ensures |r| == |fs|
  {
    seq(|fs|, i requires 0 <= i < |fs| => (fs[i].0, g(fs[i].1)))
  }

  /** The value under a renamed key is the value of the last entry renamed to it. */
  lemma {:induction false} TransformKeysLastWins(fs: Fields, f: string -> string, i: nat)
    requires i < |fs|
    requires forall j :: i < j < |fs| ==> f(fs[j].0) != f(fs[i].0)
    ensures Get(TransformKeys(fs, f), f(fs[i].0)) == fs[i].1
  {
    var n := |fs| - 1;
    if i < n {
      assert fs[..n][i] == fs[i];
      TransformKeysLastWins(fs[..n], f, i);
    }
  }

  /** When no two keys are renamed alike, transform_keys renames entry by entry in place. */
  lemma {:induction false} TransformKeysWithoutCollision(fs: Fields, f: string -> string)
    requires forall i, j :: 0 <= i < j < |fs| ==> f(fs[i].0) != f(fs[j].0)
    ensures TransformKeys(fs, f) == Rename(fs, f)
  {
    if |fs| > 0 {
      var n := |fs| - 1;
      var pre := fs[..n];
      var k := f(fs[n].0);
      assert forall i :: 0 <= i < n ==> pre[i] == fs[i];
      TransformKeysWithoutCollision(pre, f);
      forall i | 0 <= i < n
        ensures f(pre[i].0) != k
      {
        assert pre[i] == fs[i];
      }
      TransformKeysKeys(pre, f);
      assert k !in Keys(TransformKeys(pre, f));
      RenameSnoc(fs, f);
    }
  }

  lemma RenameSnoc(fs: Fields, f: string -> string)
    requires |fs| > 0
    ensures Rename(fs[..|fs| - 1], f) + [(f(fs[|fs| - 1].0), fs[|fs| - 1].1)] == Rename(fs, f)
  {
  }

  lemma MapValuesCons(x: (string, Json), rest: Fields, g: Json -> Json)
    ensures MapValues([x] + rest, g) == [(x.0, g(x.1))] + MapValues(rest, g)
  {
    assert forall i :: 0 <= i < |rest| ==> ([x] + rest)[i + 1] == rest[i];
  }

  /** Storing a mapped value into the mapped hash maps the hash after the store. */
  lemma {:induction false} PutMapValues(fs: Fields, k: string, v: Json, g: Json -> Json)
    ensures Put(MapValues(fs, g), k, g(v)) == MapValues(Put(fs, k, v), g)
  {
    if |fs| == 0 {
      MapValuesCons((k, v), [], g);
    } else {
      var mapped := MapValues(fs, g);
      MapValuesCons(fs[0], fs[1..], g);
      assert fs == [fs[0]] + fs[1..];
      assert mapped[0] == (fs[0].0, g(fs[0].1)) && mapped[1..] == MapValues(fs[1..], g);
      if fs[0].0 == k {
        assert Put(mapped, k, g(v)) == [(k, g(v))] + mapped[1..];
        assert Put(fs, k, v) == [(k, v)] + fs[1..];
        MapValuesCons((k, v), fs[1..], g);
      } else {
        PutMapValues(fs[1..], k, v, g);
        assert Put(mapped, k, g(v)) == [mapped[0]] + Put(mapped[1..], k, g(v));
        assert Put(fs, k, v) == [fs[0]] + Put(fs[1..], k, v);
        MapValuesCons(fs[0], Put(fs[1..], k, v), g);
      }
    }
  }

  /** Renaming keys and mapping values commute. */
  lemma {:induction false} TransformKeysMapValues(fs: Fields, f: string -> string, g: Json -> Json)
    ensures TransformKeys(MapValues(fs, g), f) == MapValues(TransformKeys(fs, f), g)
  {
    if |fs| > 0 {
      var n := |fs| - 1;
      assert MapValues(fs, g)[..n] == MapValues(fs[..n], g);
      TransformKeysMapValues(fs[..n], f, g);
      PutMapValues(TransformKeys(fs[..n], f), f(fs[n].0), fs[n].1, g);
    }
  }
}
