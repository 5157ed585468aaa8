/** The search tool example of the test suite: a Loogle reply with two hits, queried with limit 1. */
module SearchExamples {
  import opened Wrappers
  import opened PyText
  import opened PyJson
  import opened SearchTool

  const Query := "Nat.add_assoc"

  function AssocHit(): Json {
    JObject(map["name" := JString(Query), "type" := JString("(n m k : Nat) : _"), "doc" := JString("assoc")])
  }

  function CommHit(): Json {
    JObject(map["name" := JString("Nat.add_comm"), "type" := JString("(n m : Nat) : _"), "doc" := JString("comm")])
  }

  function MockPayload(): Json {
    JObject(map["hits" := JArray([AssocHit(), CommHit()])])
  }

  /** The query goes to the JSON endpoint of the Loogle host. */
  lemma QueriesJsonEndpoint(encoded: string)
    ensures Contains(ApiUrl(encoded), LoogleHost + "/json")
  {
    assert "/" + "json?q=" == "/json" + "?q=";
    assert ApiUrl(encoded) == "https://" + (LoogleHost + "/json") + ("?q=" + encoded);
    ContainsMiddle("https://", LoogleHost + "/json", "?q=" + encoded);
  }

  /** With limit 1 only the first hit is kept, under its own name. */
  lemma MockedSearch()
    ensures Search(Query, 1, Query, Received(MockPayload())).query == Query
    ensures Search(Query, 1, Query, Received(MockPayload())).count == 1
    ensures Search(Query, 1, Query, Received(MockPayload())).results[0].name == JString(Query)
  {
    var members := AssocHit().members;
    assert Get(members, "name") == JString(Query);
    assert SelectItems(MockPayload()) == JArray([AssocHit(), CommHit()]);
    var hits := [AssocHit(), CommHit()];
    assert SliceEnd(|hits|, 1) == 1;
    assert hits[..1] == [AssocHit()];
    assert Window(SelectItems(MockPayload()), 1) == Some([AssocHit()]);
  }
}
