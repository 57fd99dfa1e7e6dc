/**
 * The dictionary HTTP API of Labs/4: a write-once word -> definition store, a
 * request counter, the date of the last insertion, and the router that turns a
 * request into a status code and a JSON body.
 *
 * The response is returned as a value instead of being written to a socket; the
 * current date is a parameter (`today`) instead of a clock reading.
 */
module Dictionary {
  import opened Wrappers
  import opened JsString

  // The message catalog (Labs/4/lang/en/en.js).
  const DuplicateWordWarning := "Warning! Word is already recorded in the dictionary and cannot be added"
  const BadRequest := "Request could not be understood"
  // The NewEntry template, written as the text around its first three placeholders
  // so that proofs can split it there.
  const NewEntryHead := "Request # "
  const NewEntryAfter1 := "\t\t(updated on "
  const NewEntryAfter2 := ")\n\nNew Entry:\n"
  const NewEntryTail := "\n\n(Total Entries : %4)"
  const NewEntry := NewEntryHead + "%1" + (NewEntryAfter1 + "%2" + (NewEntryAfter2 + "%3" + NewEntryTail))
  const WordNotFound := "This word does not exist in our dictionary!"
  const PageNotFound := "Page Not Found"

  /** The value of `lastUpdated` before the first insertion. */
  const NoUpdates := "NO UPDATES"

  /** One stored pair; the source keeps it as a one-key object `{word: definition}`. */
  datatype Entry = Entry(word: string, definition: string)

  /** The already-parsed JSON body of a POST: its `word` and `definition` fields. */
  datatype PostBody = PostBody(word: Option<string>, definition: Option<string>)

  /** A request: verb (HTTP method), URL path, the `word` query parameter and the parsed body. */
  datatype Request = Request(verb: string, path: string, word: Option<string>, body: PostBody)

  /** The JSON object sent back. */
  datatype Body =
    | Empty
    | Message(message: string, requestNumber: nat)
    | Definition(definition: string, requestNumber: nat)

  datatype Response = Response(status: nat, body: Body)

  /**
   * The string can be spliced between double quotes and read back unchanged by
   * `JSON.parse`: no quote, no backslash, no control character.
   */
  predicate JsonSafe(s: string) {
    forall k :: 0 <= k < |s| ==> s[k] != '"' && s[k] != '\\' && s[k] >= ' '
  }

  /**
   * `addDefinition` builds and parses the JSON text `{"word" : "def"}` only when
   * the word is new; only then must the pair survive that round trip.
   */
  predicate InsertSafe(dictionary: seq<Entry>, word: string, def: string) {
    !HasWord(dictionary, word) ==> JsonSafe(word) && JsonSafe(def)
  }

  /** A POST body reaches `addDefinition` only when both fields are truthy. */
  predicate BodySafe(dictionary: seq<Entry>, body: PostBody) {
    Truthy(body.word) && Truthy(body.definition) ==>
      InsertSafe(dictionary, body.word.value, body.definition.value)
  }

  /** Some entry has key `word`. */
  predicate HasWord(dictionary: seq<Entry>, word: string) {
    exists k :: 0 <= k < |dictionary| && dictionary[k].word == word
  }

  /** At most one entry per word. */
  predicate UniqueWords(dictionary: seq<Entry>) {
    forall i, j :: 0 <= i < j < |dictionary| ==> dictionary[i].word != dictionary[j].word
  }

  /** Every entry has a non-empty word and definition (only truthy pairs are inserted). */
  predicate Filled(dictionary: seq<Entry>) {
    forall k :: 0 <= k < |dictionary| ==> dictionary[k].word != "" && dictionary[k].definition != ""
  }

  /** The index of the first entry keyed by `word`, or the length of the store if none is. */
  function FirstKeyed(dictionary: seq<Entry>, word: string): (k: nat)
    ensures k <= |dictionary|
    ensures k < |dictionary| ==> dictionary[k].word == word
    ensures forall j :: 0 <= j < k ==> dictionary[j].word != word
  {
    if dictionary == [] then 0
    else if dictionary[0].word == word then 0
    else 1 + FirstKeyed(dictionary[1..], word)
  }

  /**
   * `dictionary.filter(defPair => Object.keys(defPair)[0] === word)`: the entries
   * keyed by the word, the first of them being the first such entry in the store.
   */
  function Matching(dictionary: seq<Entry>, word: string): (r: seq<Entry>)
    ensures forall e :: e in r <==> e in dictionary && e.word == word
    ensures |r| > 0 <==> HasWord(dictionary, word)
    ensures |r| > 0 ==> FirstKeyed(dictionary, word) < |dictionary| && r[0] == dictionary[FirstKeyed(dictionary, word)]
  {
    if dictionary == [] then []
    else
      var rest := Matching(dictionary[1..], word);
      assert HasWord(dictionary, word) <==> dictionary[0].word == word || HasWord(dictionary[1..], word) by {
        if HasWord(dictionary[1..], word) {
          var k :| 0 <= k < |dictionary[1..]| && dictionary[1..][k].word == word;
          assert dictionary[k + 1].word == word;
        }
        if HasWord(dictionary, word) && dictionary[0].word != word {
          var k :| 0 <= k < |dictionary| && dictionary[k].word == word;
          assert dictionary[1..][k - 1].word == word;
        }
      }
      if dictionary[0].word == word then [dictionary[0]] + rest else rest
  }

  /** `getDefinition`: the definition of the first entry stored under exactly `word`, or null. */
  function GetDefinition(dictionary: seq<Entry>, word: string): (r: Option<string>)
    ensures r.Some? <==> HasWord(dictionary, word)
    ensures r.Some? ==> Entry(word, r.value) in dictionary
    ensures r.Some? ==> r.value == dictionary[FirstKeyed(dictionary, word)].definition
  {
    var found := Matching(dictionary, word);
    if |found| > 0 then
      assert found[0] in found;
      Some(found[0].definition)
    else
      None
  }

  /** The store read as a map from word to definition. */
  function AsMap(dictionary: seq<Entry>): map<string, string> {
    if dictionary == [] then map[]
    else
      var last := dictionary[|dictionary| - 1];
      AsMap(dictionary[..|dictionary| - 1])[last.word := last.definition]
  }

  /** The map view holds exactly the stored words, each with its stored definition. */
  lemma AsMapHolds(dictionary: seq<Entry>)
    requires UniqueWords(dictionary)
    ensures forall w :: w in AsMap(dictionary) <==> HasWord(dictionary, w)
    ensures forall k :: 0 <= k < |dictionary| ==>
      dictionary[k].word in AsMap(dictionary) && AsMap(dictionary)[dictionary[k].word] == dictionary[k].definition
  {
    AsMapKeys(dictionary);
    AsMapValues(dictionary);
  }

  /** The keys of the map view are the stored words. */
  lemma {:induction false} AsMapKeys(dictionary: seq<Entry>)
    ensures forall w :: w in AsMap(dictionary) <==> HasWord(dictionary, w)
  {
    if dictionary != [] {
      var n := |dictionary| - 1;
      var init := dictionary[..n];
      AsMapKeys(init);
      forall w
        ensures w in AsMap(dictionary) <==> HasWord(dictionary, w)
      {
        if HasWord(dictionary, w) && w != dictionary[n].word {
          var k :| 0 <= k < |dictionary| && dictionary[k].word == w;
          assert init[k].word == w;
        }
        if HasWord(init, w) {
          var k :| 0 <= k < |init| && init[k].word == w;
          assert dictionary[k].word == w;
        }
      }
    }
  }

  /** With one entry per word, the map view sends each stored word to its definition. */
  lemma {:induction false} AsMapValues(dictionary: seq<Entry>)
    requires UniqueWords(dictionary)
    ensures forall k :: 0 <= k < |dictionary| ==>
      dictionary[k].word in AsMap(dictionary) && AsMap(dictionary)[dictionary[k].word] == dictionary[k].definition
  {
    if dictionary != [] {
      var n := |dictionary| - 1;
      var init := dictionary[..n];
      assert UniqueWords(init) by {
        forall i, j | 0 <= i < j < |init|
          ensures init[i].word != init[j].word
        {
          assert init[i] == dictionary[i] && init[j] == dictionary[j];
        }
      }
      AsMapValues(init);
      forall k | 0 <= k < n
        ensures dictionary[k].word in AsMap(dictionary) && AsMap(dictionary)[dictionary[k].word] == dictionary[k].definition
      {
        assert init[k] == dictionary[k];
      }
    }
  }

  /** `getDefinition` agrees with the map view of a store with unique words. */
  lemma GetDefinitionIsMapLookup(dictionary: seq<Entry>, word: string)
    requires UniqueWords(dictionary)
    ensures GetDefinition(dictionary, word) ==
      if word in AsMap(dictionary) then Some(AsMap(dictionary)[word]) else None
  {
    AsMapHolds(dictionary);
    var r := GetDefinition(dictionary, word);
    if r.Some? {
      var k :| 0 <= k < |dictionary| && dictionary[k] == Entry(word, r.value);
    }
  }

  /**
   * The success message of a POST: the `NewEntry` template with its first `%1`,
   * then its first `%2`, then its first `%3` replaced, in that order.
   */
  function NewEntryMessage(lastUpdated: string, word: string, definition: string, count: nat): string {
    Replace(Replace(Replace(NewEntry, "%1", lastUpdated), "%2", "\"" + word + "\" - " + definition),
            "%3", NatToString(count))
  }

  /**
   * Whatever is spliced in, the message ends with the template's literal
   * "(Total Entries : %4)": no replacement ever reaches the `%4` placeholder.
   */
  lemma NewEntryKeepsPlaceholder4(lastUpdated: string, word: string, definition: string, count: nat)
    ensures EndsWith(NewEntryMessage(lastUpdated, word, definition, count), NewEntryTail)
  {
    var t2 := NewEntryAfter2 + "%3" + NewEntryTail;
    var t1 := NewEntryAfter1 + "%2" + t2;
    assert EndsWith(NewEntry, NewEntryHead + "%1" + t1);
    KeepTailAfter(NewEntry, NewEntryHead, "%1", t1, lastUpdated);
    var s1 := Replace(NewEntry, "%1", lastUpdated);
    KeepTailAfter(s1, NewEntryAfter1, "%2", t2, "\"" + word + "\" - " + definition);
    var s2 := Replace(s1, "%2", "\"" + word + "\" - " + definition);
    KeepTailAfter(s2, NewEntryAfter2, "%3", NewEntryTail, NatToString(count));
  }

  /**
   * With no `%` and no `$` in the spliced texts, the message is the template with
   * the date in the "Request #" slot, the pair in the "updated on" slot and the
   * entry count in the "New Entry" slot.
   */
  lemma NewEntryLayout(lastUpdated: string, word: string, definition: string, count: nat)
    requires '%' !in lastUpdated && '%' !in word && '%' !in definition
    requires '$' !in lastUpdated && '$' !in word && '$' !in definition
    ensures NewEntryMessage(lastUpdated, word, definition, count) ==
      NewEntryHead + lastUpdated + NewEntryAfter1 + ("\"" + word + "\" - " + definition) +
      NewEntryAfter2 + NatToString(count) + NewEntryTail
  {
    NewEntryParts();
    NatToStringPlain(count);
    var pair := "\"" + word + "\" - " + definition;
    var t2 := NewEntryAfter2 + "%3" + NewEntryTail;
    var t1 := NewEntryAfter1 + "%2" + t2;
    ReplaceFirstLead(NewEntryHead, "%1", t1, lastUpdated);
    var a2 := NewEntryHead + lastUpdated + NewEntryAfter1;
    Regroup(NewEntryHead + lastUpdated, NewEntryAfter1, "%2", t2);
    ReplaceFirstLead(a2, "%2", t2, pair);
    var a3 := a2 + pair + NewEntryAfter2;
    Regroup(a2 + pair, NewEntryAfter2, "%3", NewEntryTail);
    ReplaceFirstLead(a3, "%3", NewEntryTail, NatToString(count));
  }

  /** The literal parts of the template and of the pair hold no `%` and no `$`. */
  lemma NewEntryParts()
    ensures '%' !in NewEntryHead && '%' !in NewEntryAfter1 && '%' !in NewEntryAfter2
    ensures '%' !in "\"" && '%' !in "\" - " && '$' !in "\"" && '$' !in "\" - "
  {
  }

  /** The server's state: the store, the date of the last insertion, the request counter. */
  datatype ServerState = ServerState(dictionary: seq<Entry>, lastUpdated: string, requestCount: nat)

  /** The state set up by the constructor. */
  const Initial := ServerState([], NoUpdates, 0)

  /** The store invariant: one entry per word, every pair non-empty. */
  predicate ValidState(st: ServerState) {
    UniqueWords(st.dictionary) && Filled(st.dictionary)
  }

  /**
   * `addDefinition` on a state value: a word already present is rejected and
   * nothing changes; a new word is appended and stamps `lastUpdated` with `today`.
   */
  function Insert(st: ServerState, word: string, def: string, today: string): (r: (ServerState, bool))
    requires InsertSafe(st.dictionary, word, def)
    ensures r.1 <==> !HasWord(st.dictionary, word)
    ensures !r.1 ==> r.0 == st
    ensures r.1 ==> r.0.dictionary == st.dictionary + [Entry(word, def)] && r.0.lastUpdated == today
    ensures r.0.requestCount == st.requestCount
    ensures UniqueWords(st.dictionary) ==> UniqueWords(r.0.dictionary)
    ensures r.1 ==> AsMap(r.0.dictionary) == AsMap(st.dictionary)[word := def]
  {
    if |Matching(st.dictionary, word)| > 0 then
      (st, false)
    else
      // The JSON text {"word" : "def"} parses back to this pair because both are JsonSafe.
      var dictionary := st.dictionary + [Entry(word, def)];
      assert dictionary[..|dictionary| - 1] == st.dictionary;
      (st.(dictionary := dictionary, lastUpdated := today), true)
  }

  /** `handleGet`: the response to a GET on the API path. */
  function GetResponse(dictionary: seq<Entry>, requestCount: nat, word: Option<string>): (r: Response)
    ensures r.body.Message? || r.body.Definition?
    ensures r.body.requestNumber == requestCount
    ensures !Truthy(word) ==> r == Response(400, Message(BadRequest, requestCount))
    ensures Truthy(word) && !HasWord(dictionary, word.value) ==>
      r == Response(404, Message(WordNotFound, requestCount))
    ensures Truthy(word) && HasWord(dictionary, word.value) && Filled(dictionary) ==>
      r.status == 200 && r.body.Definition? && Entry(word.value, r.body.definition) in dictionary
    ensures r.status == 200 ==> Truthy(word) && r.body.Definition? && Entry(word.value, r.body.definition) in dictionary
  {
    if Truthy(word) then
      var def := GetDefinition(dictionary, word.value);
      if def.Some? && def.value != "" then
        Response(200, Definition(def.value, requestCount))
      else
        Response(404, Message(WordNotFound, requestCount))
    else
      Response(400, Message(BadRequest, requestCount))
  }

  /**
   * `handlePost`: validate the body, insert, and report. It answers 200 exactly for
   * a new word with both fields truthy, and otherwise 400 with the state untouched;
   * the counter is never changed and always reported.
   */
  function PostResponse(st: ServerState, body: PostBody, today: string): (r: (ServerState, Response))
    requires BodySafe(st.dictionary, body)
    ensures r.1.status == 200 <==>
      Truthy(body.word) && Truthy(body.definition) && !HasWord(st.dictionary, body.word.value)
    ensures r.1.status != 200 ==> r.1.status == 400 && r.0 == st
    ensures r.1.body.Message? && r.1.body.requestNumber == st.requestCount
    ensures r.0.requestCount == st.requestCount
  {
    if Truthy(body.word) && Truthy(body.definition) then
      var word, def := body.word.value, body.definition.value;
      var (next, added) := Insert(st, word, def, today);
      if added then
        var message := NewEntryMessage(next.lastUpdated, word, def, |next.dictionary|);
        (next, Response(200, Message(message, next.requestCount)))
      else
        (next, Response(400, Message(DuplicateWordWarning, next.requestCount)))
    else
      (st, Response(400, Message(BadRequest, st.requestCount)))
  }

  /** The two paths that reach the handlers. */
  predicate ApiPath(path: string) {
    path == "/api/definitions" || path == "/api/definitions/"
  }

  /**
   * What the `JSON.parse` in `addDefinition` needs of a request for the insertion to
   * behave as modelled: only a POST on the API path reaches it.
   */
  predicate Parsable(st: ServerState, req: Request) {
    req.verb == "POST" && ApiPath(req.path) ==> BodySafe(st.dictionary, req.body)
  }

  /**
   * `handleRequest`: dispatch on the verb once the path has been accepted. Only a
   * POST can change the state, the counter is left alone and every answer reports it.
   */
  function Dispatch(st: ServerState, req: Request, today: string): (r: (ServerState, Response))
    requires req.verb == "POST" ==> BodySafe(st.dictionary, req.body)
    ensures req.verb != "POST" ==> r.0 == st
    ensures r.0.requestCount == st.requestCount
    ensures !r.1.body.Empty? && r.1.body.requestNumber == st.requestCount
  {
    if req.verb == "POST" then PostResponse(st, req.body, today)
    else if req.verb == "GET" then (st, GetResponse(st.dictionary, st.requestCount, req.word))
    else (st, Response(501, Message(BadRequest, st.requestCount)))
  }

  /**
   * The request callback installed by `startServer`: OPTIONS is answered 204 and
   * not counted; every other request is counted once, then the path is checked,
   * then the verb.
   */
  function Serve(st: ServerState, req: Request, today: string): (ServerState, Response)
    requires Parsable(st, req)
  {
    if req.verb == "OPTIONS" then
      (st, Response(204, Empty))
    else
      var counted := st.(requestCount := st.requestCount + 1);
      if ApiPath(req.path) then Dispatch(counted, req, today)
      else (counted, Response(404, Message(PageNotFound, counted.requestCount)))
  }

  /** OPTIONS is answered 204 with no body and changes nothing, not even the counter. */
  lemma ServeOptions(st: ServerState, req: Request, today: string)
    requires req.verb == "OPTIONS"
    ensures Serve(st, req, today) == (st, Response(204, Empty))
  {
  }

  /**
   * Every other request is counted exactly once, whatever its path or outcome, and
   * its JSON body reports the new count.
   */
  lemma ServeCountsOnce(st: ServerState, req: Request, today: string)
    requires Parsable(st, req) && req.verb != "OPTIONS"
    ensures Serve(st, req, today).0.requestCount == st.requestCount + 1
    ensures !Serve(st, req, today).1.body.Empty?
    ensures Serve(st, req, today).1.body.requestNumber == st.requestCount + 1
  {
  }

  /** A path other than the API path gets 404 whatever the verb; only a POST on it can write. */
  lemma ServeRouting(st: ServerState, req: Request, today: string)
    requires Parsable(st, req) && req.verb != "OPTIONS"
    ensures !ApiPath(req.path) ==>
      Serve(st, req, today).1 == Response(404, Message(PageNotFound, st.requestCount + 1))
    ensures !ApiPath(req.path) || req.verb != "POST" ==>
      Serve(st, req, today).0.dictionary == st.dictionary &&
      Serve(st, req, today).0.lastUpdated == st.lastUpdated
  {
  }

  /** On the API path, a verb other than OPTIONS, GET and POST is answered 501 and changes only the counter. */
  lemma ServeUnimplemented(st: ServerState, req: Request, today: string)
    requires ApiPath(req.path) && req.verb !in {"OPTIONS", "GET", "POST"}
    ensures Serve(st, req, today) ==
      (st.(requestCount := st.requestCount + 1), Response(501, Message(BadRequest, st.requestCount + 1)))
  {
  }

  /** The three outcomes of a GET on the API path. */
  lemma ServeGet(st: ServerState, req: Request, today: string)
    requires ValidState(st) && req.verb == "GET" && ApiPath(req.path)
    ensures var r := Serve(st, req, today).1;
      (!Truthy(req.word) ==> r == Response(400, Message(BadRequest, st.requestCount + 1))) &&
      (Truthy(req.word) && !HasWord(st.dictionary, req.word.value) ==>
        r == Response(404, Message(WordNotFound, st.requestCount + 1))) &&
      (Truthy(req.word) && HasWord(st.dictionary, req.word.value) ==>
        r == Response(200, Definition(GetDefinition(st.dictionary, req.word.value).value, st.requestCount + 1)) &&
        Entry(req.word.value, r.body.definition) in st.dictionary)
  {
  }

  /** The three outcomes of a POST on the API path. */
  lemma ServePost(st: ServerState, req: Request, today: string)
    requires Parsable(st, req) && req.verb == "POST" && ApiPath(req.path)
    ensures var (next, r) := Serve(st, req, today);
      (!(Truthy(req.body.word) && Truthy(req.body.definition)) ==>
        r == Response(400, Message(BadRequest, st.requestCount + 1)) && next.dictionary == st.dictionary) &&
      (Truthy(req.body.word) && Truthy(req.body.definition) && HasWord(st.dictionary, req.body.word.value) ==>
        r == Response(400, Message(DuplicateWordWarning, st.requestCount + 1)) &&
        next.dictionary == st.dictionary && next.lastUpdated == st.lastUpdated) &&
      (Truthy(req.body.word) && Truthy(req.body.definition) && !HasWord(st.dictionary, req.body.word.value) ==>
        next.dictionary == st.dictionary + [Entry(req.body.word.value, req.body.definition.value)] &&
        next.lastUpdated == today &&
        r == Response(200, Message(NewEntryMessage(today, req.body.word.value, req.body.definition.value,
                                                   |st.dictionary| + 1), st.requestCount + 1)))
  {
  }

  /**
   * The store is write-once: a request either leaves it alone or appends one
   * entry, it appends exactly when it answers 200 to a POST, and the invariant
   * (one entry per word, non-empty pairs) is kept.
   */
  lemma ServeWriteOnce(st: ServerState, req: Request, today: string)
    requires ValidState(st) && Parsable(st, req)
    ensures var (next, r) := Serve(st, req, today);
      ValidState(next) &&
      st.dictionary <= next.dictionary && |next.dictionary| <= |st.dictionary| + 1 &&
      (|next.dictionary| == |st.dictionary| + 1 <==> req.verb == "POST" && r.status == 200)
  {
  }

  /** The dictionary server of Labs/4/app.js with its three mutable fields. */
  class DictionaryServer {
    var dictionary: seq<Entry>
    var lastUpdated: string
    var requestCount: nat

    /** The fields as a state value. */
    function State(): ServerState
      reads this
    {
      ServerState(dictionary, lastUpdated, requestCount)
    }

    constructor ()
      ensures State() == Initial
    {
      dictionary := [];
      lastUpdated := NoUpdates;
      requestCount := 0;
    }

    /** `addDefinition`: check for the word with `filter`, then push and stamp the date. */
    method AddDefinition(word: string, def: string, today: string) returns (added: bool)
      requires InsertSafe(dictionary, word, def)
      modifies this`dictionary, this`lastUpdated
      ensures (State(), added) == Insert(old(State()), word, def, today)
    {
      var check := Matching(dictionary, word);
      if |check| > 0 {
        added := false;
      } else {
        dictionary := dictionary + [Entry(word, def)];
        lastUpdated := today;
        added := true;
      }
    }

    /** `handlePost`. */
    method HandlePost(body: PostBody, today: string) returns (r: Response)
      requires BodySafe(dictionary, body)
      modifies this`dictionary, this`lastUpdated
      ensures (State(), r) == PostResponse(old(State()), body, today)
    {
      if Truthy(body.word) && Truthy(body.definition) {
        var word, def := body.word.value, body.definition.value;
        var didAdd := AddDefinition(word, def, today);
        if didAdd {
          var message := NewEntryMessage(lastUpdated, word, def, |dictionary|);
          r := Response(200, Message(message, requestCount));
        } else {
          r := Response(400, Message(DuplicateWordWarning, requestCount));
        }
      } else {
        r := Response(400, Message(BadRequest, requestCount));
      }
    }

    /** `handleRequest`. */
    method HandleRequest(req: Request, today: string) returns (r: Response)
      requires req.verb == "POST" ==> BodySafe(dictionary, req.body)
      modifies this`dictionary, this`lastUpdated
      ensures (State(), r) == Dispatch(old(State()), req, today)
    {
      if req.verb == "POST" {
        r := HandlePost(req.body, today);
      } else if req.verb == "GET" {
        r := GetResponse(dictionary, requestCount, req.word);
      } else {
        r := Response(501, Message(BadRequest, requestCount));
      }
    }

    /** The callback of `startServer`: pre-flight, counter, path check, dispatch. */
    method ServeRequest(req: Request, today: string) returns (r: Response)
      requires Parsable(State(), req)
      modifies this
      ensures (State(), r) == Serve(old(State()), req, today)
    {
      if req.verb == "OPTIONS" {
        return Response(204, Empty);
      }
      requestCount := requestCount + 1;
      if ApiPath(req.path) {
        r := HandleRequest(req, today);
      } else {
        r := Response(404, Message(PageNotFound, requestCount));
      }
    }
  }

  /**
   * Inserting "cat" and then looking it up on a fresh server answers with its
   * definition and request number 2.
   */
  method CatExample(today: string) returns (r: Response)
    ensures r == Response(200, Definition("a small domesticated feline", 2))
  {
    var server := new DictionaryServer();
    var post := Request("POST", "/api/definitions", None,
                        PostBody(Some("cat"), Some("a small domesticated feline")));
    var created := server.ServeRequest(post, today);
    var stored := [Entry("cat", "a small domesticated feline")];
    assert server.State() == ServerState(stored, today, 1);
    assert GetDefinition(stored, "cat") == Some("a small domesticated feline");
    var get := Request("GET", "/api/definitions", Some("cat"), PostBody(None, None));
    r := server.ServeRequest(get, today);
  }

  /**
   * A second insertion of the same word is rejected and leaves one entry, even
   * when its definition holds quotes that the JSON text of a new entry could not carry.
   */
  method DuplicateExample(today: string, tomorrow: string) returns (first: Response, second: Response, entries: nat)
    ensures first.status == 200
    ensures second == Response(400, Message(DuplicateWordWarning, 2))
    ensures entries == 1
  {
    var server := new DictionaryServer();
    var post := Request("POST", "/api/definitions/", None, PostBody(Some("cat"), Some("feline")));
    first := server.ServeRequest(post, today);
    var stored := [Entry("cat", "feline")];
    assert server.State() == ServerState(stored, today, 1);
    assert HasWord(stored, "cat");
    var again := Request("POST", "/api/definitions/", None, PostBody(Some("cat"), Some("a \"small\" feline")));
    ServePost(server.State(), again, tomorrow);
    second := server.ServeRequest(again, tomorrow);
    assert server.State() == ServerState(stored, today, 2);
    entries := |server.dictionary|;
  }
}
