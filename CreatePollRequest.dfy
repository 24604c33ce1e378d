/** Validation of a create-poll request body before it reaches the store. */
module CreatePollRequest {
  import opened JsText
  import opened PollRecords

  /** A parsed JSON request body. */
  datatype Json =
    | JNull
    | JBool(b: bool)
    | JNumber(n: real)
    | JString(s: string)
    | JArray(items: seq<Json>)
    | JObject(fields: map<string, Json>)

  /** What the handler does with a body: answer with an error status, or
      pass a question and option texts on to the store. */
  datatype Outcome =
    | Rejected(status: nat, error: string)
    | Accepted(question: string, optionTexts: seq<string>)

  const QuestionRequired: string := "Question is required"
  const TwoOptionsRequired: string := "At least 2 options are required"
  const CreateFailed: string := "Failed to create poll"

  /** Property access `body.name` on a non-null body; `None` is `undefined`.
      Only objects have named properties in a JSON value. */
  function Property(body: Json, name: string): Option<Json>
  {
    if body.JObject? && name in body.fields then Some(body.fields[name]) else None
  }

  /** The filter callback: a string entry whose trim is non-empty. */
  predicate IsUsableOption(item: Json)
  {
    item.JString? && |Trim(item.s)| > 0
  }

  /** Texts that are all non-blank string entries of `items`. */
  predicate KeptFrom(kept: seq<string>, items: seq<Json>)
  {
    forall i :: 0 <= i < |kept| ==> JString(kept[i]) in items && !IsBlank(kept[i])
  }

  /** Keeping a usable first entry in front of texts kept from the rest. */
  lemma KeptFromCons(items: seq<Json>, rest: seq<string>)
    requires items != [] && IsUsableOption(items[0])
    requires KeptFrom(rest, items[1..])
    ensures KeptFrom([items[0].s] + rest, items)
  {
    var kept := [items[0].s] + rest;
    forall i | 0 <= i < |kept| ensures JString(kept[i]) in items && !IsBlank(kept[i]) {
      if i == 0 {
        assert JString(kept[0]) == items[0];
      } else {
        assert kept[i] == rest[i - 1];
        assert JString(rest[i - 1]) in items[1..];
      }
    }
  }

  /** Texts kept from the rest are kept from the whole. */
  lemma KeptFromTail(items: seq<Json>, rest: seq<string>)
    requires items != []
    requires KeptFrom(rest, items[1..])
    ensures KeptFrom(rest, items)
  {
    forall i | 0 <= i < |rest| ensures JString(rest[i]) in items {
      assert JString(rest[i]) in items[1..];
    }
  }

  /** `optionTexts.filter(...)`: the usable entries, unmodified. */
  function KeepOptions(items: seq<Json>): (kept: seq<string>)
    ensures |kept| <= |items|
    ensures forall i :: 0 <= i < |kept| ==> JString(kept[i]) in items && !IsBlank(kept[i])
  {
    if items == [] then []
    else
      var rest := KeepOptions(items[1..]);
      if IsUsableOption(items[0]) then
        KeptFromCons(items, rest);
        [items[0].s] + rest
      else
        KeptFromTail(items, rest);
        rest
  }

  /** The usable options of a body: the kept entries when `options` is an
      array, otherwise none at all. */
  function UsableOptions(body: Json): seq<string>
  {
    match Property(body, "options")
    case Some(JArray(items)) => KeepOptions(items)
    case _ => []
  }

  /** `question` is truthy, a string, and its trim is truthy. */
  predicate HasQuestion(body: Json)
  {
    match Property(body, "question")
    case Some(JString(q)) => |q| > 0 && |Trim(q)| > 0
    case _ => false
  }

  /** The request handler's checks, in order. A `null` body makes the
      destructuring throw, which the handler answers with a server error. */
  function ValidateCreatePoll(body: Json): (r: Outcome)
    ensures body.JNull? ==> r == Rejected(500, CreateFailed)
    ensures !body.JNull? && !HasQuestion(body) ==> r == Rejected(400, QuestionRequired)
    ensures !body.JNull? && HasQuestion(body) && |UsableOptions(body)| < 2 ==>
              r == Rejected(400, TwoOptionsRequired)
    ensures r.Accepted? <==> !body.JNull? && HasQuestion(body) && |UsableOptions(body)| >= 2
    ensures r.Accepted? ==>
              && r.question == Trim(Property(body, "question").value.s)
              && r.question != ""
              && !IsTrimmable(r.question[0]) && !IsTrimmable(r.question[|r.question| - 1])
              && r.optionTexts == UsableOptions(body)
              && (forall i :: 0 <= i < |r.optionTexts| ==> !IsBlank(r.optionTexts[i]))
  {
    if body.JNull? then Rejected(500, CreateFailed)
    else if !HasQuestion(body) then Rejected(400, QuestionRequired)
    else
      var opts := UsableOptions(body);
      if |opts| < 2 then Rejected(400, TwoOptionsRequired)
      else Accepted(Trim(Property(body, "question").value.s), opts)
  }

  /** The filter keeps the relative order of the entries: it distributes over
      concatenation. */
  lemma {:induction false} KeepOptionsAppend(a: seq<Json>, b: seq<Json>)
    ensures KeepOptions(a + b) == KeepOptions(a) + KeepOptions(b)
  {
    if a == [] {
      assert a + b == b;
    } else {
      assert (a + b)[1..] == a[1..] + b;
      KeepOptionsAppend(a[1..], b);
    }
  }

  /** A single entry is kept, as it is, exactly when it is usable. */
  lemma KeepOptionsSingle(item: Json)
    ensures KeepOptions([item]) == if IsUsableOption(item) then [item.s] else []
  {
    assert [item][1..] == [];
  }

  /** JSON strings for a list of texts. */
  function Strings(texts: seq<string>): (items: seq<Json>)
    ensures |items| == |texts|
    ensures forall i :: 0 <= i < |texts| ==> items[i] == JString(texts[i])
  {
    seq(|texts|, i requires 0 <= i < |texts| => JString(texts[i]))
  }

  /** When every entry is a non-blank string, nothing is dropped. */
  lemma {:induction false} KeepAllUsable(texts: seq<string>)
    requires forall i :: 0 <= i < |texts| ==> !IsBlank(texts[i])
    ensures KeepOptions(Strings(texts)) == texts
  {
    if texts != [] {
      assert Strings(texts)[1..] == Strings(texts[1..]);
      KeepAllUsable(texts[1..]);
    }
  }

  /** There is no upper bound on the number of options: a body whose
      question is not blank and whose options are two or more non-blank
      texts is accepted, and the texts are passed on untrimmed. */
  lemma AnyNumberOfOptionsAccepted(body: Json, question: string, texts: seq<string>)
    requires Property(body, "question") == Some(JString(question))
    requires Property(body, "options") == Some(JArray(Strings(texts)))
    requires !IsBlank(question)
    requires |texts| >= 2
    requires forall i :: 0 <= i < |texts| ==> !IsBlank(texts[i])
    ensures ValidateCreatePoll(body) == Accepted(Trim(question), texts)
  {
    assert HasQuestion(body) by {
      assert |question| > 0 && |Trim(question)| > 0;
    }
    assert UsableOptions(body) == texts by {
      KeepAllUsable(texts);
    }
  }

  /** An `options` field that is not an array leaves no usable option, so
      the request is never accepted. */
  lemma NonArrayOptionsRejected(body: Json)
    requires !(Property(body, "options").Some? && Property(body, "options").value.JArray?)
    ensures !ValidateCreatePoll(body).Accepted?
  {
  }
}
