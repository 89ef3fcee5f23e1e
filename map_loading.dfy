/**
 * `loadMapData`: try each map-data URL in list order, return the first document
 * that loads, and fail with the last error when none does.
 *
 * The network is not modelled: what `fetch` and `response.json()` give for the
 * i-th URL is the i-th element of a sequence of replies.
 */
module MapLoading {
  import opened Wrappers
  import opened Decimal

  /** What `response.json()` gives: a document, JSON `null`, or a syntax error. */
  datatype Body<D> = Document(doc: D) | NullDocument | Malformed(syntaxMessage: string)

  /** What `fetch(url)` gives: a rejected promise, or a response with its `ok` flag, status and body. */
  datatype Reply<D> = Rejected(message: string) | Response(ok: bool, status: nat, body: Body<D>)

  /** The error caught for one attempt. */
  datatype FetchError =
    | Transport(message: string)    // `fetch` itself rejected
    | HttpStatus(status: nat)       // `throw new Error('HTTP error! status: ...')`
    | Syntax(message: string)       // `response.json()` rejected
    | NullFeatures                  // `chinaJson.features` read on a `null` document

  datatype Attempt<D> = Loaded(doc: D) | Failed(error: FetchError)

  /** The final outcome of `loadMapData`: the resolved document or the message of the thrown error. */
  datatype LoadOutcome<D> = MapLoaded(doc: D) | LoadFailed(message: string)

  const HttpErrorPrefix := "HTTP error! status: "
  const AllFailedPrefix := "所有数据源均加载失败。最后的错误: "
  /** The TypeError a JavaScript engine (V8) raises for a property read on `null`. */
  const NullFeaturesMessage := "Cannot read properties of null (reading 'features')"
  const NullLastErrorMessage := "Cannot read properties of null (reading 'message')"

  /** `error.message` of the error caught for one attempt. */
  function ErrorMessage(e: FetchError): string {
    match e
    case Transport(m) => m
    case HttpStatus(status) => HttpErrorPrefix + DecimalString(status)
    case Syntax(m) => m
    case NullFeatures => NullFeaturesMessage
  }

  /** Different status codes give different messages, so the message identifies the status. */
  lemma HttpMessageIdentifiesStatus(a: nat, b: nat)
    requires ErrorMessage(HttpStatus(a)) == ErrorMessage(HttpStatus(b))
    ensures a == b
  {
    var ma, mb := ErrorMessage(HttpStatus(a)), ErrorMessage(HttpStatus(b));
    assert ma[|HttpErrorPrefix|..] == DecimalString(a);
    assert mb[|HttpErrorPrefix|..] == DecimalString(b);
    DecimalStringInjective(a, b);
  }

  /**
   * One pass through the body of the `try` block: a response that is not ok fails
   * without its body being read, a body that does not parse fails, a `null`
   * document fails when its features are counted, and anything else is returned.
   */
  function Classify<D>(reply: Reply<D>): (a: Attempt<D>)
    ensures a.Loaded? <==> reply.Response? && reply.ok && reply.body.Document?
    ensures a.Loaded? ==> a.doc == reply.body.doc
    ensures reply.Response? && !reply.ok ==> a == Failed(HttpStatus(reply.status))
    ensures reply.Rejected? ==> a == Failed(Transport(reply.message))
  {
    match reply
    case Rejected(m) => Failed(Transport(m))
    case Response(ok, status, body) =>
      if !ok then Failed(HttpStatus(status))
      else match body
        case Malformed(m) => Failed(Syntax(m))
        case NullDocument => Failed(NullFeatures)
        case Document(doc) => Loaded(doc)
  }

  /** The index of the first attempt that loads, or the number of attempts when none does. */
  function FirstLoaded<D>(attempts: seq<Attempt<D>>): (k: nat)
    ensures k <= |attempts|
    ensures forall j :: 0 <= j < k ==> attempts[j].Failed?
    ensures k < |attempts| ==> attempts[k].Loaded?
  {
    if attempts == [] then 0
    else if attempts[0].Loaded? then 0
    else
      var k := FirstLoaded(attempts[1..]);
      assert forall j :: 1 <= j < 1 + k ==> attempts[j] == attempts[1..][j - 1];
      1 + k
  }

  /** How many URLs are fetched: up to and including the first that loads. */
  function AttemptCount<D>(attempts: seq<Attempt<D>>): (n: nat)
    ensures n <= |attempts|
  {
    var k := FirstLoaded(attempts);
    if k < |attempts| then k + 1 else |attempts|
  }

  /**
   * The reference outcome of the fallback chain: the first loaded document; failing
   * that, an error naming the last attempt's error; with no URL at all, the TypeError
   * of reading `message` on the still-`null` `lastError`.
   */
  function ChainOutcome<D>(attempts: seq<Attempt<D>>): LoadOutcome<D> {
    var k := FirstLoaded(attempts);
    if k < |attempts| then MapLoaded(attempts[k].doc)
    else if attempts == [] then LoadFailed(NullLastErrorMessage)
    else LoadFailed(AllFailedPrefix + ErrorMessage(attempts[|attempts| - 1].error))
  }

  /** The attempts the replies amount to, URL by URL. */
  function Attempts<D>(replies: seq<Reply<D>>): (a: seq<Attempt<D>>)
    ensures |a| == |replies|
    ensures forall j :: 0 <= j < |a| ==> a[j] == Classify(replies[j])
  {
    seq(|replies|, j requires 0 <= j < |replies| => Classify(replies[j]))
  }

  /**
   * The loop of `loadMapData`. `replies[i]` is what fetching `mapUrls[i]` gives;
   * `requested` lists the URLs fetched, in the order they were fetched.
   */
  method LoadMapData<D>(mapUrls: seq<string>, replies: seq<Reply<D>>) returns (outcome: LoadOutcome<D>, requested: seq<string>)
    requires |replies| == |mapUrls|
    ensures outcome == ChainOutcome(Attempts(replies))
    ensures requested == mapUrls[..AttemptCount(Attempts(replies))]
  {
    ghost var attempts := Attempts(replies);
    var lastError: Option<FetchError> := None;
    requested := [];
    for i := 0 to |mapUrls|
      invariant requested == mapUrls[..i]
      invariant forall j :: 0 <= j < i ==> attempts[j].Failed?
      invariant lastError == if i == 0 then None else Some(attempts[i - 1].error)
    {
      requested := requested + [mapUrls[i]];
      match Classify(replies[i])
      case Loaded(doc) =>
        assert FirstLoaded(attempts) == i;
        return MapLoaded(doc), requested;
      case Failed(error) =>
        lastError := Some(error);
    }
    assert FirstLoaded(attempts) == |attempts|;
    match lastError
    case None =>
      outcome := LoadFailed(NullLastErrorMessage);
    case Some(error) =>
      outcome := LoadFailed(AllFailedPrefix + ErrorMessage(error));
  }

  /** Attempts stop at the first one that loads, and its document is the result. */
  lemma FirstSuccessWins<D>(attempts: seq<Attempt<D>>, k: nat)
    requires k < |attempts| && attempts[k].Loaded?
    requires forall j :: 0 <= j < k ==> attempts[j].Failed?
    ensures ChainOutcome(attempts) == MapLoaded(attempts[k].doc)
    ensures AttemptCount(attempts) == k + 1
  {
  }

  /** When every URL fails, all are tried and the thrown message ends with the last attempt's message. */
  lemma AllFailedReportsLastError<D>(attempts: seq<Attempt<D>>)
    requires |attempts| > 0
    requires forall j :: 0 <= j < |attempts| ==> attempts[j].Failed?
    ensures AttemptCount(attempts) == |attempts|
    ensures ChainOutcome(attempts).LoadFailed?
    ensures var m := ChainOutcome(attempts).message;
      var last := ErrorMessage(attempts[|attempts| - 1].error);
      m[..|AllFailedPrefix|] == AllFailedPrefix && m[|AllFailedPrefix|..] == last
  {
  }

  /** The chain fails only when no attempt loads. */
  lemma ChainFailsIffAllFail<D>(attempts: seq<Attempt<D>>)
    ensures ChainOutcome(attempts).LoadFailed? <==> forall j :: 0 <= j < |attempts| ==> attempts[j].Failed?
  {
    var f := FirstLoaded(attempts);
    if f < |attempts| {
      assert attempts[f].Loaded?;
    }
  }

  /** A response that is not ok fails even when its body would have parsed. */
  lemma NotOkIsFailure<D>(status: nat, body: Body<D>)
    ensures Classify(Response(false, status, body)) == Failed(HttpStatus(status))
    ensures ErrorMessage(Classify(Response(false, status, body)).error) == HttpErrorPrefix + DecimalString(status)
  {
  }
}
