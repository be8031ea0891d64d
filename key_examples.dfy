/** Worked keys for the two case converters, as the API's field names use them. */
module KeyExamples {
  import opened RubyString
  import opened JsonResponse
  import opened JsonRequest

  lemma IsEnrolledWords(words: seq<string>)
    requires words == ["is", "Enrolled"]
    ensures CamelWords(words)
    ensures Concat(words) == "isEnrolled"
  {
    assert Hump("Enrolled") by { assert LowerWord("Enrolled"[1..]); }
    assert Concat(words[1..]) == "Enrolled" + Concat([]);
  }

  lemma IsEnrolledLowered(words: seq<string>)
    requires words == ["is", "Enrolled"]
    ensures Join(Lowered(words), '_') == "is_enrolled"
  {
    assert Downcase("is") == "is";
    assert Downcase("Enrolled") == "enrolled";
    assert Lowered(words) == ["is", "enrolled"];
  }

  lemma IsEnrolled()
    ensures Underscore("isEnrolled") == "is_enrolled"
  {
    var words := ["is", "Enrolled"];
    IsEnrolledWords(words);
    UnderscoreCamelWords(words);
    IsEnrolledLowered(words);
  }

  lemma StateUpdatedAtWords(words: seq<string>)
    requires words == ["state", "Updated", "At"]
    ensures CamelWords(words)
    ensures Concat(words) == "stateUpdatedAt"
  {
    assert Hump("Updated") by { assert LowerWord("Updated"[1..]); }
    assert Hump("At") by { assert LowerWord("At"[1..]); }
    assert Concat(words[2..]) == "At";
    assert Concat(words[1..]) == "UpdatedAt";
  }

  lemma StateUpdatedAtLowered(words: seq<string>)
    requires words == ["state", "Updated", "At"]
    ensures Join(Lowered(words), '_') == "state_updated_at"
  {
    var lowered := Lowered(words);
    assert lowered[0] == Downcase("state") == "state";
    assert lowered[1] == Downcase("Updated") == "updated";
    assert lowered[2] == Downcase("At") == "at";
    assert lowered == ["state", "updated", "at"];
    JoinCons("updated", ["at"], '_');
    JoinCons("state", ["updated", "at"], '_');
  }

  lemma StateUpdatedAt()
    ensures Underscore("stateUpdatedAt") == "state_updated_at"
  {
    var words := ["state", "Updated", "At"];
    StateUpdatedAtWords(words);
    UnderscoreCamelWords(words);
    StateUpdatedAtLowered(words);
  }

  lemma OobChannelWords(words: seq<string>)
    requires words == ["oob", "channel"]
    ensures SnakeWords(words)
    ensures Join(words, '_') == "oob_channel"
  {
    assert SnakeWord("channel") by { assert LowerWord("channel"[1..]); }
  }

  lemma OobChannelParts(words: seq<string>)
    requires words == ["oob", "channel"]
    ensures Concat(CamelParts(words)) == "oobChannel"
  {
    assert Capitalize("channel") == "Channel";
    assert CamelParts(words) == ["oob", "Channel"];
    assert Concat(["oob", "Channel"]) == "oobChannel";
  }

  lemma OobChannel()
    ensures SnakeToCamel("oob_channel") == "oobChannel"
  {
    var words := ["oob", "channel"];
    OobChannelWords(words);
    SnakeWordsFree(words);
    SnakeToCamelWords(words);
    OobChannelParts(words);
  }
}
