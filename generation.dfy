/**
 * The generation pipeline behind the "Gerar Imagem" button: encode the person
 * image, encode every item image, send both encodings and the instruction to
 * the composite-image service once, and report its image or the first error.
 * The encoder and the service are outside the core; they enter as functions
 * that give the settled outcome of each call.
 */
module Generation {

  import opened ImageRegistry

  /** A value thrown by a failed call: an `Error` object or anything else. */
  datatype Thrown = ErrorInstance(message: string) | NonError

  /** The settled state of a promise. */
  datatype Settled<+T> = Resolved(value: T) | Rejected(reason: Thrown)

  /** One call the pipeline makes outside the core. */
  datatype ExternalCall =
    | ReadAsBase64(file: File)
    | ComposeImage(person: string, items: seq<string>, prompt: string)

  /** What one press of the button does outside the core, and its outcome. */
  datatype Run = Run(calls: seq<ExternalCall>, result: Settled<string>)

  const MissingPersonMessage: string := "Por favor, envie a foto de uma pessoa primeiro."
  const UnknownErrorMessage: string := "Ocorreu um erro desconhecido durante a geração da imagem."

  /**
   * The message shown for a thrown value: an `Error`'s own message, anything
   * else the generic fallback.
   */
  function ErrorText(reason: Thrown): (text: string)
    ensures reason.ErrorInstance? ==> text == reason.message
    ensures reason.NonError? ==> text == UnknownErrorMessage
  {
    match reason
    case ErrorInstance(message) => message
    case NonError => UnknownErrorMessage
  }

  /** One encoding per item image, in item order (`itemImages.map`). */
  function EncodeEach(encode: File -> Settled<string>, items: seq<ImageFile>): (rs: seq<Settled<string>>)
    ensures |rs| == |items|
    ensures forall k :: 0 <= k < |items| ==> rs[k] == encode(items[k].file)
  {
    seq(|items|, k requires 0 <= k < |items| => encode(items[k].file))
  }

  /** The encoder calls for the item images, in item order. */
  function ItemReads(items: seq<ImageFile>): (calls: seq<ExternalCall>)
    ensures |calls| == |items|
    ensures forall k :: 0 <= k < |items| ==> calls[k] == ReadAsBase64(items[k].file)
  {
    seq(|items|, k requires 0 <= k < |items| => ReadAsBase64(items[k].file))
  }

  /**
   * `Promise.all` over settled encodings: all values, in input order, when
   * every one resolved; otherwise the reason of one that was rejected.
   */
  function AwaitAll(rs: seq<Settled<string>>): (r: Settled<seq<string>>)
    ensures r.Resolved? <==> forall k :: 0 <= k < |rs| ==> rs[k].Resolved?
    ensures r.Resolved? ==> |r.value| == |rs| && forall k :: 0 <= k < |rs| ==> rs[k] == Resolved(r.value[k])
    ensures r.Rejected? ==> exists k :: 0 <= k < |rs| && rs[k] == Rejected(r.reason)
  {
    if rs == [] then Resolved([])
    else
      match rs[0]
      case Rejected(reason) => Rejected(reason)
      case Resolved(v) =>
        match AwaitAll(rs[1..])
        case Rejected(reason) =>
          assert forall k :: 1 <= k < |rs| ==> rs[k] == rs[1..][k - 1];
          Rejected(reason)
        case Resolved(vs) => Resolved([v] + vs)
  }

  /** Every encoding the pipeline needs succeeds. */
  predicate AllEncoded(encode: File -> Settled<string>, person: File, items: seq<ImageFile>)
  {
    encode(person).Resolved? && forall k :: 0 <= k < |items| ==> encode(items[k].file).Resolved?
  }

  /**
   * The body of the `try` block: encode the person, then all the items, then
   * call the service once; the first failure ends the run.
   */
  function GenerationRun(
    encode: File -> Settled<string>,
    service: (string, seq<string>, string) -> Settled<string>,
    person: File, items: seq<ImageFile>, prompt: string): (run: Run)
    ensures |run.calls| > 0 && run.calls[0] == ReadAsBase64(person)
    ensures encode(person).Rejected? ==> run == Run([ReadAsBase64(person)], encode(person))
    ensures encode(person).Resolved? ==> |run.calls| > |items| && run.calls[1..|items| + 1] == ItemReads(items)
    ensures run.result.Resolved? ==> AllEncoded(encode, person, items)
  {
    var personEncoding := encode(person);
    if personEncoding.Rejected? then Run([ReadAsBase64(person)], personEncoding)
    else
      var fileReads := [ReadAsBase64(person)] + ItemReads(items);
      assert fileReads[1..|items| + 1] == ItemReads(items);
      var itemEncodings := AwaitAll(EncodeEach(encode, items));
      if itemEncodings.Rejected? then Run(fileReads, Rejected(itemEncodings.reason))
      else
        var request := ComposeImage(personEncoding.value, itemEncodings.value, prompt);
        assert (fileReads + [request])[1..|items| + 1] == fileReads[1..|items| + 1];
        Run(fileReads + [request], service(personEncoding.value, itemEncodings.value, prompt))
  }

  /** How many service calls a call log holds. */
  function ComposeCount(calls: seq<ExternalCall>): nat
  {
    if calls == [] then 0
    else (if calls[0].ComposeImage? then 1 else 0) + ComposeCount(calls[1..])
  }

  lemma {:induction false} ComposeCountAppend(a: seq<ExternalCall>, b: seq<ExternalCall>)
    ensures ComposeCount(a + b) == ComposeCount(a) + ComposeCount(b)
  {
    if a == [] {
      assert a + b == b;
    } else {
      assert (a + b)[0] == a[0];
      assert (a + b)[1..] == a[1..] + b;
      ComposeCountAppend(a[1..], b);
    }
  }

  lemma {:induction false} ComposeCountReads(calls: seq<ExternalCall>)
    requires forall k :: 0 <= k < |calls| ==> calls[k].ReadAsBase64?
    ensures ComposeCount(calls) == 0
  {
    if calls != [] {
      ComposeCountReads(calls[1..]);
    }
  }

  /**
   * The service is called once when every encoding succeeds and never
   * otherwise: no request is sent after a failed encoding.
   */
  lemma ServiceCalledOnceIffAllEncoded(
    encode: File -> Settled<string>,
    service: (string, seq<string>, string) -> Settled<string>,
    person: File, items: seq<ImageFile>, prompt: string)
    ensures ComposeCount(GenerationRun(encode, service, person, items, prompt).calls)
         == if AllEncoded(encode, person, items) then 1 else 0
  {
    var run := GenerationRun(encode, service, person, items, prompt);
    var fileReads := [ReadAsBase64(person)] + ItemReads(items);
    ComposeCountReads(fileReads);
    if encode(person).Rejected? {
      ComposeCountReads(run.calls);
    } else if AllEncoded(encode, person, items) {
      var request := run.calls[|run.calls| - 1];
      assert run.calls == fileReads + [request];
      ComposeCountAppend(fileReads, [request]);
    } else {
      assert run.calls == fileReads;
    }
  }

  /**
   * The request the service receives carries the person's encoding, the item
   * encodings in the order and number of the item list, and the instruction;
   * it is the last call made, and its answer is the run's outcome.
   */
  lemma ServiceRequestFollowsRegistry(
    encode: File -> Settled<string>,
    service: (string, seq<string>, string) -> Settled<string>,
    person: File, items: seq<ImageFile>, prompt: string)
    requires AllEncoded(encode, person, items)
    ensures var run := GenerationRun(encode, service, person, items, prompt);
      var request := run.calls[|run.calls| - 1];
      && request.ComposeImage?
      && encode(person) == Resolved(request.person)
      && |request.items| == |items|
      && (forall k :: 0 <= k < |items| ==> encode(items[k].file) == Resolved(request.items[k]))
      && request.prompt == prompt
      && run.result == service(request.person, request.items, request.prompt)
  {
    var rs := EncodeEach(encode, items);
    assert forall k :: 0 <= k < |rs| ==> rs[k].Resolved?;
  }

  /**
   * A failed run fails with the reason of the person's encoding, of one of the
   * item encodings, or of the service.
   */
  lemma RejectionHasSource(
    encode: File -> Settled<string>,
    service: (string, seq<string>, string) -> Settled<string>,
    person: File, items: seq<ImageFile>, prompt: string)
    ensures var run := GenerationRun(encode, service, person, items, prompt);
      run.result.Rejected? ==>
        || encode(person) == run.result
        || (exists k :: 0 <= k < |items| && encode(items[k].file) == run.result)
        || (AllEncoded(encode, person, items) && run.calls[|run.calls| - 1].ComposeImage?
            && service(run.calls[|run.calls| - 1].person, run.calls[|run.calls| - 1].items, prompt) == run.result)
  {
    var run := GenerationRun(encode, service, person, items, prompt);
    if run.result.Rejected? && encode(person).Resolved? {
      var all := AwaitAll(EncodeEach(encode, items));
      if all.Rejected? {
        var k :| 0 <= k < |items| && EncodeEach(encode, items)[k] == Rejected(all.reason);
        assert encode(items[k].file) == run.result;
      } else {
        ServiceRequestFollowsRegistry(encode, service, person, items, prompt);
      }
    }
  }
}
