/**
 * Capturing a body while it is relayed: the handlers of `captureAndForward` in src/record/bodyBuffer.ts.
 */
module BodyBuffers {
  import opened Wire

  /** 2 MB. */
  const MAX_BODY_BYTES := 2 * 1024 * 1024

  datatype Collected = Collected(text: Option<Text>, totalBytes: nat, retainedBytes: nat, truncated: bool)

  /** Bytes that decode without a replacement character. */
  type IsText = Bytes -> bool

  /** A body that is empty, or is no text, has no text form. */
  function DecodeText(isText: IsText, raw: Bytes): Option<Text> {
    if raw == [] || !isText(raw) then None else Some(raw)
  }

  /** What a body comes to, whatever chunks it arrives in. */
  function Outcome(isText: IsText, maxBytes: nat, body: Bytes): Collected {
    if |body| > maxBytes then Collected(None, |body|, 0, true)
    else Collected(DecodeText(isText, body), |body|, |body|, false)
  }

  /**
   * By default, two megabytes are kept: a body within them that is text is kept whole, one past them is counted and
   * dropped.
   */
  lemma {:induction false} DefaultOutcome(isText: IsText, body: Bytes)
    ensures var c := Outcome(isText, MAX_BODY_BYTES, body);
            && c.totalBytes == |body| && (c.truncated <==> |body| > 2097152)
            && c.retainedBytes == (if c.truncated then 0 else |body|)
            && (c.text.Some? <==> 0 < |body| <= 2097152 && isText(body))
            && (c.text.Some? ==> c.text.value == body)
  {
  }

  class BodyBuffer {
    const maxBytes: nat
    var retained: seq<Bytes>
    var retainedBytes: nat
    var totalBytes: nat
    var truncated: bool

    /** Everything relayed so far. */
    ghost var body: Bytes

    /** Bounded memory: what is kept is the whole body, or nothing once the body is past the cap. */
    ghost predicate Valid()
      reads this
    {
      && totalBytes == |body| && truncated == (|body| > maxBytes)
      && Concat(retained) == (if truncated then [] else body)
      && retainedBytes == |Concat(retained)| <= maxBytes
      && (truncated ==> retained == [])
    }

    constructor (maxBytes: nat)
      ensures Valid() && this.maxBytes == maxBytes && body == []
    {
      this.maxBytes := maxBytes;
      retained, retainedBytes, totalBytes, truncated, body := [], 0, 0, false, [];
    }

    method OnData(chunk: Bytes)
      requires Valid()
      modifies this
      ensures Valid() && body == old(body) + chunk
    {
      body := body + chunk;
      totalBytes := totalBytes + |chunk|;
      if truncated {
        return;
      }
      if retainedBytes + |chunk| > maxBytes {
        truncated := true;
        retained := [];
        retainedBytes := 0;
        return;
      }
      ConcatAppend(retained, [chunk]);
      assert Concat([chunk]) == chunk + [] == chunk;
      retained := retained + [chunk];
      retainedBytes := retainedBytes + |chunk|;
    }

    method OnEnd(isText: IsText) returns (collected: Collected)
      requires Valid()
      ensures collected == Outcome(isText, maxBytes, body)
    {
      collected := Collected(if truncated then None else DecodeText(isText, Concat(retained)), totalBytes,
          retainedBytes, truncated);
    }
  }

  /** Relay a whole body in chunks, as the stream events deliver it: the outcome depends on the bytes alone. */
  method Capture(isText: IsText, chunks: seq<Bytes>, maxBytes: nat := MAX_BODY_BYTES) returns (collected: Collected)
    ensures collected == Outcome(isText, maxBytes, Concat(chunks))
    ensures collected.retainedBytes <= maxBytes && (collected.truncated <==> |Concat(chunks)| > maxBytes)
  {
    var buffer := new BodyBuffer(maxBytes);
    for i := 0 to |chunks|
      invariant fresh(buffer) && buffer.Valid() && buffer.maxBytes == maxBytes && buffer.body == Concat(chunks[..i])
    {
      ConcatAppend(chunks[..i], [chunks[i]]);
      assert Concat([chunks[i]]) == chunks[i] + [] == chunks[i];
      assert chunks[..i + 1] == chunks[..i] + [chunks[i]];
      buffer.OnData(chunks[i]);
    }
    assert chunks[..|chunks|] == chunks;
    collected := buffer.OnEnd(isText);
  }
}
