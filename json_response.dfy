/**
 * Authsignal::Middleware::JsonResponse: a response body that parses to a
 * JSON object loses its top-level "actionCode" entry and has every key, at
 * every depth, rewritten from camelCase to snake_case.
 */
module JsonResponse {
  import opened Results
  import opened RubyString
  import opened Json

  /* ---------------------------------------------------------------------
   * underscore
   * ------------------------------------------------------------------- */

  predicate HasDash(s: string) {
    '-' in s
  }

  predicate HasDoubleColon(s: string) {
    |s| >= 2 && ((s[0] == ':' && s[1] == ':') || HasDoubleColon(s[1..]))
  }

  /** The guard /[A-Z-]|::/ : an upper-case letter, a dash or a double colon. */
  predicate NeedsRewrite(s: string) {
    HasUpper(s) || HasDash(s) || HasDoubleColon(s)
  }

  /** gsub("::", "/"), scanning left to right without overlap. */
  function ReplaceDoubleColon(s: string): (r: string)
    ensures !HasDoubleColon(r)
    ensures HasUpper(r) ==> HasUpper(s)
    ensures HasDash(r) ==> HasDash(s)
    ensures |r| > 0 && r[0] == ':' ==> |s| > 0 && s[0] == ':'
  {
    if |s| >= 2 && s[0] == ':' && s[1] == ':' then "/" + ReplaceDoubleColon(s[2..])
    else if |s| == 0 then ""
    else [s[0]] + ReplaceDoubleColon(s[1..])
  }

  /**
   * Whether the regular expression /([A-Z])(?=[A-Z][a-z])|([a-z\d])(?=[A-Z])/
   * matches the first character of s: an upper-case letter followed by an
   * upper-case and a lower-case letter, or a lower-case letter or digit
   * followed by an upper-case letter.
   */
  predicate WordBreakAfterFirst(s: string)
    requires |s| > 0
  {
    (IsUpper(s[0]) && |s| >= 3 && IsUpper(s[1]) && IsLower(s[2]))
    || ((IsLower(s[0]) || IsDigit(s[0])) && |s| >= 2 && IsUpper(s[1]))
  }

  /** The second gsub: `_` after every character the expression matches. */
  function InsertUnderscores(s: string): (r: string)
    ensures |r| >= |s|
    ensures |s| > 0 ==> |r| > 0 && r[0] == s[0]
    ensures HasDash(r) ==> HasDash(s)
  {
    if |s| == 0 then ""
    else [s[0]] + (if WordBreakAfterFirst(s) then "_" else "") + InsertUnderscores(s[1..])
  }

  /** The inserted underscores never form a `::`. */
  lemma {:induction false} InsertUnderscoresNoDoubleColon(s: string)
    requires !HasDoubleColon(s)
    ensures !HasDoubleColon(InsertUnderscores(s))
  {
    if |s| > 0 {
      var rest := InsertUnderscores(s[1..]);
      InsertUnderscoresNoDoubleColon(s[1..]);
      if WordBreakAfterFirst(s) {
        assert InsertUnderscores(s) == [s[0]] + "_" + rest;
        assert (InsertUnderscores(s))[1..] == "_" + rest;
        assert ("_" + rest)[1..] == rest;
      } else {
        assert InsertUnderscores(s) == [s[0]] + rest;
        assert (InsertUnderscores(s))[1..] == rest;
      }
    }
  }

  /** tr("-", "_"). */
  function DashToUnderscore(s: string): (r: string)
    ensures |r| == |s| && !HasDash(r)
    ensures forall i :: 0 <= i < |s| ==> (s[i] == '-' ==> r[i] == '_') && (s[i] != '-' ==> r[i] == s[i])
  {
    seq(|s|, i requires 0 <= i < |s| => if s[i] == '-' then '_' else s[i])
  }

  lemma {:induction false} DoubleColonPointwise(s: string, t: string)
    requires |t| == |s|
    requires forall i :: 0 <= i < |s| ==> (t[i] == ':' <==> s[i] == ':')
    ensures HasDoubleColon(t) <==> HasDoubleColon(s)
  {
    if |s| >= 2 {
      DoubleColonPointwise(s[1..], t[1..]);
    }
  }

  /**
   * The underscore helper of the middleware: camelCase and Ruby::Paths to
   * snake_case. Whatever the key, the result has no upper-case letter, no
   * dash and no `::`.
   */
  function Underscore(camelcased: string): (r: string)
    ensures !NeedsRewrite(r)
  {
    if !NeedsRewrite(camelcased) then camelcased
    else
      var a := ReplaceDoubleColon(camelcased);
      var b := InsertUnderscores(a);
      var c := DashToUnderscore(b);
      var d := Downcase(c);
      InsertUnderscoresNoDoubleColon(a);
      DoubleColonPointwise(b, c);
      assert forall i :: 0 <= i < |c| ==> (d[i] == ':' <==> c[i] == ':');
      DoubleColonPointwise(c, d);
      d
  }

  /** underscore returns its argument exactly when the guard finds nothing to rewrite. */
  lemma UnderscoreFixedPoint(key: string)
    ensures Underscore(key) == key <==> !NeedsRewrite(key)
  {
  }

  /** underscore is idempotent. */
  lemma UnderscoreIdempotent(key: string)
    ensures Underscore(Underscore(key)) == Underscore(key)
  {
  }

  /* ---------------------------------------------------------------------
   * transform_to_snake_case and on_complete
   * ------------------------------------------------------------------- */

  /**
   * transform_to_snake_case as a value: arrays element by element, objects
   * with every value transformed and every key passed through underscore,
   * scalars unchanged.
   */
  function SnakeCase(value: Json): (r: Json)
    ensures r.JObject? <==> value.JObject?
    ensures r.JArray? <==> value.JArray?
  {
    match value
    case JArray(items) =>
      JArray(seq(|items|, i requires 0 <= i < |items| => SnakeCase(items[i])))
    case JObject(fields) =>
      JObject(TransformKeys(seq(|fields|, i requires 0 <= i < |fields| => (fields[i].0, SnakeCase(fields[i].1))), Underscore))
    case _ => value
  }

  /** Every key at every depth is free of upper-case letters, dashes and `::`. */
  predicate SnakeCased(value: Json)
  {
    match value
    case JArray(items) => forall i :: 0 <= i < |items| ==> SnakeCased(items[i])
    case JObject(fields) =>
      forall i :: 0 <= i < |fields| ==> !NeedsRewrite(fields[i].0) && SnakeCased(fields[i].1)
    case _ => true
  }

  lemma {:induction false} SnakeCaseObject(fields: Fields)
    ensures SnakeCase(JObject(fields)) == JObject(TransformKeys(MapValues(fields, SnakeCase), Underscore))
  {
    assert seq(|fields|, i requires 0 <= i < |fields| => (fields[i].0, SnakeCase(fields[i].1)))
        == MapValues(fields, SnakeCase);
  }

  /** After transform_to_snake_case no key anywhere needs rewriting. */
  lemma {:induction false} SnakeCaseNormalises(value: Json)
    ensures SnakeCased(SnakeCase(value))
  {
    match value
    case JArray(items) =>
      forall i | 0 <= i < |items| ensures SnakeCased(SnakeCase(items[i])) {
        SnakeCaseNormalises(items[i]);
      }
    case JObject(fields) =>
      var mapped := seq(|fields|, i requires 0 <= i < |fields| => (fields[i].0, SnakeCase(fields[i].1)));
      var r := TransformKeys(mapped, Underscore);
      TransformKeysEntries(mapped, Underscore);
      forall j | 0 <= j < |r| ensures !NeedsRewrite(r[j].0) && SnakeCased(r[j].1) {
        assert r[j] in r;
        var i :| 0 <= i < |mapped| && r[j] == (Underscore(mapped[i].0), mapped[i].1);
        SnakeCaseNormalises(fields[i].1);
      }
    case _ =>
  }

  /** Entries whose keys already need no rewriting are kept as they are. */
  lemma {:induction false} NormalisedKeysKept(fields: Fields)
    requires UniqueKeys(fields)
    requires forall i :: 0 <= i < |fields| ==> !NeedsRewrite(fields[i].0)
    ensures TransformKeys(fields, Underscore) == fields
  {
    UniqueKeysDistinct(fields);
    TransformKeysWithoutCollision(fields, Underscore);
    assert Rename(fields, Underscore) == fields;
  }

  lemma {:induction false} UniqueKeysDistinct(fields: Fields)
    requires UniqueKeys(fields)
    ensures forall i, j :: 0 <= i < j < |fields| ==> fields[i].0 != fields[j].0
  {
    if |fields| > 0 {
      UniqueKeysDistinct(fields[1..]);
      KeysAt(fields[1..]);
      forall i, j | 0 <= i < j < |fields| ensures fields[i].0 != fields[j].0 {
        if i > 0 {
          assert fields[i].0 == fields[1..][i - 1].0 && fields[j].0 == fields[1..][j - 1].0;
        } else {
          assert Keys(fields[1..])[j - 1] == fields[j].0;
        }
      }
    }
  }

  lemma {:induction false} KeysAt(fields: Fields)
    ensures forall i :: 0 <= i < |fields| ==> Keys(fields)[i] == fields[i].0
  {
    if |fields| > 0 {
      KeysAt(fields[1..]);
    }
  }

  /** Hashes whose keys are all unique, at every depth, as JSON.parse builds them. */
  predicate UniqueKeysDeep(value: Json)
  {
    match value
    case JArray(items) => forall i :: 0 <= i < |items| ==> UniqueKeysDeep(items[i])
    case JObject(fields) => UniqueKeys(fields) && forall i :: 0 <= i < |fields| ==> UniqueKeysDeep(fields[i].1)
    case _ => true
  }

  /** A value whose keys all need no rewriting is left exactly as it is. */
  lemma {:induction false} SnakeCaseKeepsSnakeCased(value: Json)
    requires SnakeCased(value) && UniqueKeysDeep(value)
    ensures SnakeCase(value) == value
  {
    match value
    case JArray(items) =>
      forall i | 0 <= i < |items| ensures SnakeCase(items[i]) == items[i] {
        SnakeCaseKeepsSnakeCased(items[i]);
      }
    case JObject(fields) =>
      var mapped := seq(|fields|, i requires 0 <= i < |fields| => (fields[i].0, SnakeCase(fields[i].1)));
      forall i | 0 <= i < |fields| ensures mapped[i] == fields[i] {
        SnakeCaseKeepsSnakeCased(fields[i].1);
      }
      assert mapped == fields;
      NormalisedKeysKept(fields);
    case _ =>
  }

  lemma {:induction false} SnakeCaseUniqueKeys(value: Json)
    ensures UniqueKeysDeep(SnakeCase(value))
  {
    match value
    case JArray(items) =>
      forall i | 0 <= i < |items| ensures UniqueKeysDeep(SnakeCase(items[i])) {
        SnakeCaseUniqueKeys(items[i]);
      }
    case JObject(fields) =>
      var mapped := seq(|fields|, i requires 0 <= i < |fields| => (fields[i].0, SnakeCase(fields[i].1)));
      var r := TransformKeys(mapped, Underscore);
      TransformKeysEntries(mapped, Underscore);
      forall j | 0 <= j < |r| ensures UniqueKeysDeep(r[j].1) {
        assert r[j] in r;
        var i :| 0 <= i < |mapped| && r[j] == (Underscore(mapped[i].0), mapped[i].1);
        SnakeCaseUniqueKeys(fields[i].1);
      }
    case _ =>
  }

  /** Converting twice gives what converting once gives. */
  lemma SnakeCaseIdempotent(value: Json)
    ensures SnakeCase(SnakeCase(value)) == SnakeCase(value)
  {
    SnakeCaseNormalises(value);
    SnakeCaseUniqueKeys(value);
    SnakeCaseKeepsSnakeCased(SnakeCase(value));
  }

  /** What on_complete leaves in env.body. */
  datatype Body = Text(text: string) | Hash(fields: Fields)

  /**
   * The body after on_complete: a JSON object loses its top-level
   * "actionCode" and is snake-cased; anything else is left as received.
   */
  function ResponseBody(body: string, parse: string -> Option<Json>): Body
  {
    var parsed := parse(body);
    if parsed.Some? && parsed.value.JObject? then
      Hash(SnakeCase(JObject(Delete(parsed.value.fields, "actionCode"))).fields)
    else
      Text(body)
  }

  /**
   * A JSON object body comes back keyed by the underscored keys of its
   * entries other than "actionCode", with every nested key snake-cased; any
   * other body is left as received.
   */
  lemma ResponseBodyShape(body: string, parse: string -> Option<Json>)
    ensures parse(body).Some? && parse(body).value.JObject? ==>
      var fields := parse(body).value.fields;
      var r := ResponseBody(body, parse);
      && r.Hash?
      && (forall k :: k in Keys(r.fields) <==>
            exists i :: 0 <= i < |fields| && fields[i].0 != "actionCode" && Underscore(fields[i].0) == k)
      && SnakeCased(JObject(r.fields))
    ensures !(parse(body).Some? && parse(body).value.JObject?) ==> ResponseBody(body, parse) == Text(body)
  {
    var parsed := parse(body);
    if parsed.Some? && parsed.value.JObject? {
      var fields := parsed.value.fields;
      var kept := Delete(fields, "actionCode");
      SnakeCaseObject(kept);
      SnakeCaseNormalises(JObject(kept));
      var r := TransformKeys(MapValues(kept, SnakeCase), Underscore);
      forall k ensures k in Keys(r) <==>
          exists i :: 0 <= i < |fields| && fields[i].0 != "actionCode" && Underscore(fields[i].0) == k
      {
        RenamedKeyAfterDelete(fields, "actionCode", k);
      }
    }
  }

  /** The keys left by delete and then transform_keys: those of the entries that were not deleted. */
  lemma RenamedKeyAfterDelete(fields: Fields, gone: string, k: string)
    ensures k in Keys(TransformKeys(MapValues(Delete(fields, gone), SnakeCase), Underscore)) <==>
      exists i :: 0 <= i < |fields| && fields[i].0 != gone && Underscore(fields[i].0) == k
  {
    var kept := Delete(fields, gone);
    var mapped := MapValues(kept, SnakeCase);
    TransformKeysKeys(mapped, Underscore);
    if i :| 0 <= i < |mapped| && Underscore(mapped[i].0) == k {
      DeleteKeepsEntry(fields, gone, i);
    }
    if i :| 0 <= i < |fields| && fields[i].0 != gone && Underscore(fields[i].0) == k {
      DeleteFindsEntry(fields, gone, i);
      var j :| 0 <= j < |kept| && kept[j] == fields[i];
      assert mapped[j].0 == kept[j].0;
    }
  }

  lemma {:induction false} DeleteKeepsEntry(fs: Fields, k: string, i: nat)
    requires i < |Delete(fs, k)|
    ensures exists j :: 0 <= j < |fs| && fs[j] == Delete(fs, k)[i] && fs[j].0 != k
  {
    if fs[0].0 == k {
      DeleteKeepsEntry(fs[1..], k, i);
      var j :| 0 <= j < |fs[1..]| && fs[1..][j] == Delete(fs[1..], k)[i] && fs[1..][j].0 != k;
      assert fs[j + 1] == fs[1..][j];
    } else if i > 0 {
      DeleteKeepsEntry(fs[1..], k, i - 1);
      var j :| 0 <= j < |fs[1..]| && fs[1..][j] == Delete(fs[1..], k)[i - 1] && fs[1..][j].0 != k;
      assert fs[j + 1] == fs[1..][j];
    } else {
      assert fs[0] == Delete(fs, k)[0];
    }
  }

  lemma {:induction false} DeleteFindsEntry(fs: Fields, k: string, j: nat)
    requires j < |fs| && fs[j].0 != k
    ensures exists i :: 0 <= i < |Delete(fs, k)| && Delete(fs, k)[i] == fs[j]
  {
    if j == 0 {
      assert Delete(fs, k)[0] == fs[0];
    } else {
      assert fs[1..][j - 1] == fs[j];
      DeleteFindsEntry(fs[1..], k, j - 1);
      var i :| 0 <= i < |Delete(fs[1..], k)| && Delete(fs[1..], k)[i] == fs[j];
      if fs[0].0 == k {
        assert Delete(fs, k)[i] == fs[j];
      } else {
        assert Delete(fs, k)[i + 1] == fs[j];
      }
    }
  }

  /* ---------------------------------------------------------------------
   * camelCase keys
   * ------------------------------------------------------------------- */

  /** A run of lower-case letters and digits. */
  predicate LowerWord(w: string) {
    |w| > 0 && forall i :: 0 <= i < |w| ==> IsLower(w[i]) || IsDigit(w[i])
  }

  /** A capitalised word: one upper-case letter, then lower-case letters and digits. */
  predicate Hump(w: string) {
    |w| >= 2 && IsUpper(w[0]) && LowerWord(w[1..])
  }

  /** The words of a camelCase key such as is|Enrolled or state|Updated|At. */
  predicate CamelWords(words: seq<string>) {
    |words| > 0 && LowerWord(words[0]) && forall i :: 1 <= i < |words| ==> Hump(words[i])
  }

  /** After a lower-case letter or digit, `_` goes in exactly when an upper-case letter follows. */
  lemma InsertAfterLowerChar(c: char, rest: string)
    requires IsLower(c) || IsDigit(c)
    ensures InsertUnderscores([c] + rest)
         == [c] + (if |rest| > 0 && IsUpper(rest[0]) then "_" else "") + InsertUnderscores(rest)
  {
    assert ([c] + rest)[1..] == rest;
  }

  lemma {:induction false} InsertAfterLowerWord(w: string, rest: string)
    requires LowerWord(w)
    requires |rest| == 0 || IsUpper(rest[0])
    ensures InsertUnderscores(w + rest) == w + (if |rest| == 0 then "" else "_") + InsertUnderscores(rest)
  {
    var sep := if |rest| == 0 then "" else "_";
    Regroup(w, rest, sep, InsertUnderscores(rest));
    InsertAfterLowerChar(w[0], w[1..] + rest);
    if |w| > 1 {
      LowerWordTail(w);
      InsertAfterLowerWord(w[1..], rest);
    }
  }

  /** Moving the first character of w in and out of a concatenation. */
  lemma Regroup(w: string, rest: string, sep: string, u: string)
    requires |w| > 0
    ensures w + rest == [w[0]] + (w[1..] + rest)
    ensures [w[0]] + (w[1..] + sep + u) == w + sep + u
    ensures |w| == 1 ==> w[1..] + rest == rest && [w[0]] + sep + u == w + sep + u
  {
    assert w == [w[0]] + w[1..];
  }

  lemma LowerWordTail(w: string)
    requires LowerWord(w) && |w| > 1
    ensures LowerWord(w[1..]) && !IsUpper(w[1])
  {
    assert forall i :: 0 <= i < |w| - 1 ==> w[1..][i] == w[i + 1];
  }

  /** The expression inserts nothing inside a lower-case word or a hump, and one `_` after it. */
  lemma InsertAfterWord(w: string, rest: string)
    requires LowerWord(w) || Hump(w)
    requires |rest| == 0 || IsUpper(rest[0])
    ensures InsertUnderscores(w + rest) == w + (if |rest| == 0 then "" else "_") + InsertUnderscores(rest)
  {
    if !LowerWord(w) {
      var sep := if |rest| == 0 then "" else "_";
      Regroup(w, rest, sep, InsertUnderscores(rest));
      InsertAfterUpperChar(w[0], w[1..] + rest);
      InsertAfterLowerWord(w[1..], rest);
    } else {
      InsertAfterLowerWord(w, rest);
    }
  }

  /** After an upper-case letter followed by anything but an upper-case letter, nothing is inserted. */
  lemma InsertAfterUpperChar(c: char, rest: string)
    requires IsUpper(c) && (|rest| == 0 || !IsUpper(rest[0]))
    ensures InsertUnderscores([c] + rest) == [c] + InsertUnderscores(rest)
  {
    assert ([c] + rest)[1..] == rest;
  }

  lemma {:induction false} InsertAfterHumps(words: seq<string>)
    requires |words| > 0 && (LowerWord(words[0]) || Hump(words[0]))
    requires forall i :: 1 <= i < |words| ==> Hump(words[i])
    ensures InsertUnderscores(Concat(words)) == Join(words, '_')
  {
    var w := words[0];
    var rest := Concat(words[1..]);
    if |words| > 1 {
      InsertAfterHumps(words[1..]);
      assert words[1..][0] == words[1];
      assert rest == words[1] + Concat(words[1..][1..]);
      JoinCons(w, words[1..], '_');
      assert [w] + words[1..] == words;
    } else {
      assert rest == "";
    }
    InsertAfterWord(w, rest);
  }

  /** Each word in lower case. */
  function Lowered(words: seq<string>): (r: seq<string>)
    ensures |r| == |words| && forall i :: 0 <= i < |words| ==> r[i] == Downcase(words[i])
  {
    seq(|words|, i requires 0 <= i < |words| => Downcase(words[i]))
  }

  lemma DowncaseAppend(a: string, b: string)
    ensures Downcase(a + b) == Downcase(a) + Downcase(b)
  {
    assert forall i :: 0 <= i < |a + b| ==> Downcase(a + b)[i] == (Downcase(a) + Downcase(b))[i];
  }

  lemma {:induction false} DowncaseJoin(words: seq<string>)
    ensures Downcase(Join(words, '_')) == Join(Lowered(words), '_')
  {
    var lowered := Lowered(words);
    if |words| > 1 {
      DowncaseJoin(words[1..]);
      assert lowered[1..] == Lowered(words[1..]);
      DowncaseAppend(words[0] + "_", Join(words[1..], '_'));
      DowncaseAppend(words[0], "_");
      assert Downcase("_") == "_";
    }
  }

  lemma {:induction false} ReplaceDoubleColonWithoutColon(s: string)
    requires ':' !in s
    ensures ReplaceDoubleColon(s) == s
  {
    if |s| > 0 {
      ReplaceDoubleColonWithoutColon(s[1..]);
    }
  }

  /** gsub turns each `::` into `/` and copies the colon-free text before it unchanged. */
  lemma {:induction false} ReplaceDoubleColonAppend(a: string, b: string)
    requires forall i :: 0 <= i < |a| ==> a[i] != ':'
    ensures ReplaceDoubleColon(a + "::" + b) == a + "/" + ReplaceDoubleColon(b)
  {
    var rest := ReplaceDoubleColon(b);
    if |a| == 0 {
      Associate(a, "::", b);
      ReplaceDoubleColonAtColons(b);
    } else {
      var a' := a[1..];
      assert forall i :: 0 <= i < |a'| ==> a'[i] == a[i + 1];
      ReplaceDoubleColonAppend(a', b);
      ColonFreeStep(a, b, rest);
    }
  }

  /** One colon-free character in front of the text is copied as it is. */
  lemma ColonFreeStep(a: string, b: string, r: string)
    requires |a| > 0 && a[0] != ':'
    requires ReplaceDoubleColon(a[1..] + "::" + b) == a[1..] + "/" + r
    ensures ReplaceDoubleColon(a + "::" + b) == a + "/" + r
  {
    var c, t := a[0], a[1..];
    assert a == [c] + t;
    Associate([c], t, "::");
    Associate([c] + t, "::", b);
    Associate([c], t + "::", b);
    Associate(t, "::", b);
    ReplaceDoubleColonAtOther(c, t + "::" + b);
    Associate([c], t, "/");
    Associate([c] + t, "/", r);
    Associate([c], t + "/", r);
  }

  lemma Associate(a: string, m: string, b: string)
    ensures a + m + b == a + (m + b)
  {
  }

  lemma ReplaceDoubleColonAtColons(b: string)
    ensures ReplaceDoubleColon("::" + b) == "/" + ReplaceDoubleColon(b)
  {
    assert ("::" + b)[2..] == b;
  }

  lemma ReplaceDoubleColonAtOther(c: char, t: string)
    requires c != ':'
    ensures ReplaceDoubleColon([c] + t) == [c] + ReplaceDoubleColon(t)
  {
    assert ([c] + t)[1..] == t;
  }

  /** Letters and digits are neither `:` nor `-`. */
  lemma WordSymbolsOne(w: string)
    requires LowerWord(w) || Hump(w)
    ensures ':' !in w && '-' !in w
  {
    forall k | 0 <= k < |w| ensures w[k] != ':' && w[k] != '-' {
      if Hump(w) && k > 0 {
        assert w[k] == w[1..][k - 1];
      }
    }
  }

  lemma WordSymbols(words: seq<string>)
    requires forall i :: 0 <= i < |words| ==> LowerWord(words[i]) || Hump(words[i])
    ensures ':' !in Concat(words) && '-' !in Concat(words)
  {
    forall i | 0 <= i < |words| ensures ':' !in words[i] && '-' !in words[i] {
      WordSymbolsOne(words[i]);
    }
    ConcatFree(words, ':');
    ConcatFree(words, '-');
  }

  /**
   * A camelCase key comes out as its words in lower case, joined by `_`:
   * isEnrolled becomes is_enrolled and stateUpdatedAt state_updated_at.
   */
  lemma UnderscoreCamelWords(words: seq<string>)
    requires CamelWords(words)
    ensures Underscore(Concat(words)) == Join(Lowered(words), '_')
  {
    var key := Concat(words);
    WordSymbols(words);
    if |words| == 1 {
      SingleWordKept(words);
    } else {
      assert key == words[0] + Concat(words[1..]);
      assert Concat(words[1..]) == words[1] + Concat(words[1..][1..]);
      assert IsUpper(key[|words[0]|]);
      HumpsRewritten(words);
    }
  }

  lemma SingleWordKept(words: seq<string>)
    requires CamelWords(words) && |words| == 1
    requires ':' !in Concat(words) && '-' !in Concat(words)
    ensures Underscore(Concat(words)) == Join(Lowered(words), '_')
  {
    var key := Concat(words);
    assert key == words[0];
    assert !HasUpper(key);
    assert !HasDoubleColon(key) by {
      if HasDoubleColon(key) {
        DoubleColonNeedsColon(key);
      }
    }
  }

  lemma HumpsRewritten(words: seq<string>)
    requires CamelWords(words) && HasUpper(Concat(words))
    requires ':' !in Concat(words) && '-' !in Concat(words)
    ensures Underscore(Concat(words)) == Join(Lowered(words), '_')
  {
    var key := Concat(words);
    ReplaceDoubleColonWithoutColon(key);
    InsertAfterHumps(words);
    var joined := Join(words, '_');
    assert !HasDash(joined);
    assert DashToUnderscore(joined) == joined;
    DowncaseJoin(words);
  }

  lemma {:induction false} DoubleColonNeedsColon(s: string)
    requires HasDoubleColon(s)
    ensures ':' in s
  {
    if !(s[0] == ':' && s[1] == ':') {
      DoubleColonNeedsColon(s[1..]);
    }
  }

  /**
   * transform_to_snake_case as the middleware runs it: arrays through map,
   * hashes by transform_keys! followed by an each loop that stores the
   * transformed value back under every key; anything else is returned as is.
   */
  method TransformToSnakeCase(value: Json) returns (r: Json)
    ensures r == SnakeCase(value)
    decreases value, 1
  {
    match value {
      case JArray(items) =>
        var mapped := TransformItems(items);
        return JArray(mapped);
      case JObject(fields) =>
        var hash := TransformHash(fields);
        return JObject(hash);
      case _ =>
        return value;
    }
  }

  /** The map over an array's elements. */
  method TransformItems(items: seq<Json>) returns (mapped: seq<Json>)
    ensures |mapped| == |items|
    ensures forall k :: 0 <= k < |items| ==> mapped[k] == SnakeCase(items[k])
    decreases JArray(items), 0
  {
    mapped := [];
    var i := 0;
    while i < |items|
      invariant 0 <= i <= |items|
      invariant |mapped| == i
      invariant forall k :: 0 <= k < i ==> mapped[k] == SnakeCase(items[k])
    {
      var v := TransformToSnakeCase(items[i]);
      mapped := mapped + [v];
      i := i + 1;
    }
  }

  /** transform_keys! with underscore, then each value replaced by its transform. */
  method TransformHash(fields: Fields) returns (hash: Fields)
    ensures JObject(hash) == SnakeCase(JObject(fields))
    decreases JObject(fields), 0
  {
    hash := RenameKeys(fields);
    var keyed := hash;
    var j := 0;
    while j < |hash|
      invariant 0 <= j <= |hash|
      invariant |hash| == |keyed|
      invariant forall k :: 0 <= k < j ==> hash[k] == (keyed[k].0, SnakeCase(keyed[k].1))
      invariant forall k :: j <= k < |hash| ==> hash[k] == keyed[k]
    {
      var n := RenamedFrom(fields, keyed, j);
      assert fields[n] in fields;
      var v := TransformToSnakeCase(hash[j].1);
      hash := hash[j := (hash[j].0, v)];
      j := j + 1;
    }
    assert hash == MapValues(keyed, SnakeCase);
    TransformKeysMapValues(fields, Underscore, SnakeCase);
    SnakeCaseObject(fields);
  }

  /** Every entry of the renamed hash carries the value of some original entry. */
  lemma RenamedFrom(fields: Fields, keyed: Fields, j: nat) returns (n: nat)
    requires keyed == TransformKeys(fields, Underscore) && j < |keyed|
    ensures n < |fields| && keyed[j] == (Underscore(fields[n].0), fields[n].1)
  {
    TransformKeysEntries(fields, Underscore);
    assert keyed[j] in keyed;
    n :| 0 <= n < |fields| && keyed[j] == (Underscore(fields[n].0), fields[n].1);
  }

  /** transform_keys! { |k| underscore(k).to_sym }: each key renamed in place, in order. */
  method RenameKeys(fields: Fields) returns (hash: Fields)
    ensures hash == TransformKeys(fields, Underscore)
  {
    hash := [];
    var i := 0;
    while i < |fields|
      invariant 0 <= i <= |fields|
      invariant hash == TransformKeys(fields[..i], Underscore)
    {
      assert fields[..i + 1][..i] == fields[..i];
      hash := Put(hash, Underscore(fields[i].0), fields[i].1);
      i := i + 1;
    }
    assert fields[..|fields|] == fields;
  }

  /** on_complete: parse the body, drop "actionCode", snake-case; a parse failure leaves the body. */
  method OnComplete(body: string, parse: string -> Option<Json>) returns (result: Body)
    ensures result == ResponseBody(body, parse)
  {
    var parsed := parse(body);
    if parsed.Some? && parsed.value.JObject? {
      var fields := Delete(parsed.value.fields, "actionCode");
      var converted := TransformHash(fields);
      return Hash(converted);
    }
    return Text(body);
  }
}
