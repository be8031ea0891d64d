/**
 * Authsignal::Middleware::JsonRequest: a request body that parses to a JSON
 * object is re-serialised with its top-level keys turned from snake_case to
 * camelCase. Nested keys are not touched.
 */
module JsonRequest {
  import opened Results
  import opened RubyString
  import opened Json
  import JsonResponse

  /** The inject over the fields: the first as it is, every later one capitalised, all concatenated. */
  function CamelJoin(parts: seq<string>): string
  {
    if |parts| == 0 then "" else parts[0] + Concat(CapitalizeAll(parts[1..]))
  }

  /** Every field capitalised. */
  function CapitalizeAll(parts: seq<string>): (r: seq<string>)
    ensures |r| == |parts| && forall i :: 0 <= i < |parts| ==> r[i] == Capitalize(parts[i])
  {
    seq(|parts|, i requires 0 <= i < |parts| => Capitalize(parts[i]))
  }

  /** snake_to_camel: split on `_` and join the fields back in camelCase; no underscore survives. */
  function SnakeToCamel(str: string): (r: string)
    ensures '_' !in r
  {
    var parts := Split(str, '_');
    CamelJoinFree(parts);
    CamelJoin(parts)
  }

  lemma CamelJoinFree(parts: seq<string>)
    requires forall i :: 0 <= i < |parts| ==> '_' !in parts[i]
    ensures '_' !in CamelJoin(parts)
  {
    if |parts| > 0 {
      var rest := parts[1..];
      var tail := CapitalizeAll(rest);
      forall i | 0 <= i < |tail| ensures '_' !in tail[i] {
        assert rest[i] == parts[i + 1];
        CapitalizeFree(rest[i], '_');
      }
      ConcatFree(tail, '_');
    }
  }

  lemma CapitalizeFree(s: string, c: char)
    requires c !in s && !IsUpper(c) && !IsLower(c)
    ensures c !in Capitalize(s)
  {
    if |s| > 0 {
      var r := Capitalize(s);
      forall k | 0 <= k < |r| ensures r[k] != c {
        if k > 0 {
          assert r[k] == ToLower(s[1..][k - 1]);
          assert s[1..][k - 1] == s[k];
        }
      }
    }
  }

  /** A key without an underscore is sent as it is. */
  lemma SnakeToCamelWithoutUnderscore(str: string)
    requires '_' !in str
    ensures SnakeToCamel(str) == str
  {
    SplitOfFree(str, '_');
    if str != "" {
      assert CamelJoin([str]) == str + Concat(CapitalizeAll([]));
    }
  }

  /** A lower-case snake_case word: a lower-case letter, then lower-case letters and digits. */
  predicate SnakeWord(w: string) {
    |w| >= 2 && IsLower(w[0]) && JsonResponse.LowerWord(w[1..])
  }

  /** A snake_case key: a first word of lower-case letters and digits, then words of two or more characters. */
  predicate SnakeWords(words: seq<string>) {
    |words| > 0 && JsonResponse.LowerWord(words[0]) && forall i :: 1 <= i < |words| ==> SnakeWord(words[i])
  }

  /** The words of a snake_case key hold no `_`, and the last is not empty. */
  lemma SnakeWordsFree(words: seq<string>)
    requires SnakeWords(words)
    ensures words[|words| - 1] != ""
    ensures forall i :: 0 <= i < |words| ==> '_' !in words[i]
  {
    forall i | 0 <= i < |words| ensures '_' !in words[i] {
      var w := words[i];
      forall k | 0 <= k < |w| ensures w[k] != '_' {
        if i > 0 && k > 0 {
          assert w[k] == w[1..][k - 1];
        }
      }
    }
  }

  /** Capitalising a snake_case word gives a hump of camelCase, which downcase undoes. */
  lemma CapitalizeSnakeWord(w: string)
    requires SnakeWord(w)
    ensures JsonResponse.Hump(Capitalize(w))
    ensures Downcase(Capitalize(w)) == w
  {
    var r := Capitalize(w);
    assert r[1..] == w[1..];
    assert forall k :: 0 <= k < |w| ==> Downcase(r)[k] == w[k];
  }

  /** The words of a snake_case key as snake_to_camel emits them. */
  function CamelParts(words: seq<string>): seq<string>
    requires |words| > 0
  {
    [words[0]] + CapitalizeAll(words[1..])
  }

  /**
   * snake_to_camel on the key the words join to: the first word as it is,
   * then every later word capitalised, whatever the words hold besides `_`.
   */
  lemma SnakeToCamelWords(words: seq<string>)
    requires |words| > 0 && words[|words| - 1] != ""
    requires forall i :: 0 <= i < |words| ==> '_' !in words[i]
    ensures SnakeToCamel(Join(words, '_')) == Concat(CamelParts(words))
  {
    SplitJoin(words, '_');
    var camel := CamelParts(words);
    assert camel[1..] == CapitalizeAll(words[1..]);
  }

  lemma CamelPartsAreCamelWords(words: seq<string>)
    requires SnakeWords(words)
    ensures JsonResponse.CamelWords(CamelParts(words))
    ensures JsonResponse.Lowered(CamelParts(words)) == words
  {
    var camel := CamelParts(words);
    forall i | 1 <= i < |camel| ensures JsonResponse.Hump(camel[i]) && Downcase(camel[i]) == words[i] {
      CapitalizeSnakeWord(words[i]);
    }
    assert Downcase(camel[0]) == words[0];
  }

  /**
   * The request and response middlewares are inverse on snake_case keys:
   * snake_to_camel turns oob_channel into oobChannel and underscore turns
   * it back.
   */
  lemma CamelSnakeRoundTrip(words: seq<string>)
    requires SnakeWords(words)
    ensures JsonResponse.Underscore(SnakeToCamel(Join(words, '_'))) == Join(words, '_')
  {
    SnakeWordsFree(words);
    SnakeToCamelWords(words);
    CamelPartsAreCamelWords(words);
    JsonResponse.UnderscoreCamelWords(CamelParts(words));
  }

  /** camelcase_keys: Hash#transform_keys with snake_to_camel on the top-level keys. */
  function CamelcaseKeys(fields: Fields): (r: Fields)
    ensures UniqueKeys(r)
    ensures forall k :: k in Keys(r) <==> exists i :: 0 <= i < |fields| && SnakeToCamel(fields[i].0) == k
  {
    TransformKeysKeys(fields, SnakeToCamel);
    TransformKeys(fields, SnakeToCamel)
  }

  /** Keys that snake_to_camel maps apart keep their values and their order. */
  lemma CamelcaseKeysDistinct(fields: Fields)
    requires forall i, j :: 0 <= i < j < |fields| ==> SnakeToCamel(fields[i].0) != SnakeToCamel(fields[j].0)
    ensures CamelcaseKeys(fields) == Rename(fields, SnakeToCamel)
  {
    TransformKeysWithoutCollision(fields, SnakeToCamel);
  }

  /** Values are carried over unchanged: each entry's value is the value of some entry it came from. */
  lemma CamelcaseKeysValues(fields: Fields, k: string)
    requires k in Keys(CamelcaseKeys(fields))
    ensures exists i :: 0 <= i < |fields| && SnakeToCamel(fields[i].0) == k
                     && Get(CamelcaseKeys(fields), k) == fields[i].1
  {
    var r := CamelcaseKeys(fields);
    var j := KeyIndex(r, k);
    TransformKeysEntries(fields, SnakeToCamel);
    assert r[j] in r;
  }

  /**
   * on_request: a nil body stays nil; a body that parses to an object is
   * replaced by the serialisation of the object with camelCased keys; any
   * other body, or one that does not parse, is sent as it was.
   */
  function RequestBody(body: Option<string>, parse: string -> Option<Json>, toJson: Json -> string): (r: Option<string>)
    ensures body.None? ==> r.None?
    ensures body.Some? ==> r.Some?
    ensures body.Some? && parse(body.value).Some? && parse(body.value).value.JObject? ==>
      r.value == toJson(JObject(CamelcaseKeys(parse(body.value).value.fields)))
    ensures body.Some? && !(parse(body.value).Some? && parse(body.value).value.JObject?) ==> r == body
  {
    if body.None? then None
    else
      var parsed := parse(body.value);
      if parsed.Some? && parsed.value.JObject? then Some(toJson(JObject(CamelcaseKeys(parsed.value.fields))))
      else body
  }
}
