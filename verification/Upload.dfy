/** Streaming uploads and object versions (apps/api/src/object-store.ts). */
module Upload {
  import opened Common

  type Byte = n: nat | n < 256
  type CodeUnit = n: nat | n < 0x10000

  /** SHA-256: injective. */
  datatype Sha = Sha(bytes: seq<Byte>)

  // --- The streaming text decoder: a byte at a time, with what is left over at the end ---

  /** A step or the final flush is None where the fatal decoder throws. */
  datatype Decoder<!S> = Decoder(start: S, step: (S, Byte) -> Option<(S, seq<CodeUnit>)>, flush: S -> Option<seq<CodeUnit>>)

  /** decode(buffer, { stream: true }) from a state. */
  function DecodeFrom<S>(d: Decoder<S>, s: S, bytes: seq<Byte>): Option<(S, seq<CodeUnit>)> {
    if |bytes| == 0 then Some((s, []))
    else
      match d.step(s, bytes[0])
      case None => None
      case Some((next, units)) =>
        match DecodeFrom(d, next, bytes[1..])
        case None => None
        case Some((last, rest)) => Some((last, units + rest))
  }

  /** The decoding of a whole byte string; None where it is not valid text. */
  function DecodeAll<S>(d: Decoder<S>, bytes: seq<Byte>): Option<seq<CodeUnit>> {
    match DecodeFrom(d, d.start, bytes)
    case None => None
    case Some((s, units)) =>
      match d.flush(s)
      case None => None
      case Some(rest) => Some(units + rest)
  }

  lemma {:induction false} DecodeSplits<S>(d: Decoder<S>, s: S, a: seq<Byte>, b: seq<Byte>)
    ensures DecodeFrom(d, s, a + b) ==
      match DecodeFrom(d, s, a)
      case None => None
      case Some((mid, units)) =>
        match DecodeFrom(d, mid, b)
        case None => None
        case Some((last, rest)) => Some((last, units + rest))
    decreases |a|
  {
    if |a| == 0 {
      assert a + b == b;
      match DecodeFrom(d, s, b)
      case None =>
      case Some((_, rest)) => assert [] + rest == rest;
    } else {
      assert (a + b)[0] == a[0] && (a + b)[1..] == a[1..] + b;
      match d.step(s, a[0])
      case None =>
      case Some((next, units)) =>
        DecodeSplits(d, next, a[1..], b);
        match DecodeFrom(d, next, a[1..])
        case None =>
        case Some((mid, more)) =>
          match DecodeFrom(d, mid, b)
          case None =>
          case Some((_, rest)) => assert units + (more + rest) == (units + more) + rest;
    }
  }

  /** One byte is one step of the decoder. */
  lemma DecodesOneByte<S>(d: Decoder<S>, s: S, b: Byte)
    ensures DecodeFrom(d, s, []) == Some((s, [])) && DecodeFrom(d, s, [b]) == d.step(s, b)
  {
    assert [b][1..] == [];
    match d.step(s, b)
    case None =>
    case Some((next, units)) => assert units + [] == units;
  }

  function Concat<T>(chunks: seq<seq<T>>): seq<T> {
    if |chunks| == 0 then [] else Concat(chunks[..|chunks| - 1]) + chunks[|chunks| - 1]
  }

  // --- The extracted text ---

  /** What the upload keeps of the text: None where it is not valid. */
  datatype Extract = Extract(text: Option<seq<CodeUnit>>, truncated: bool)

  function Take(units: seq<CodeUnit>, max: nat): seq<CodeUnit> {
    if |units| <= max then units else units[..max]
  }

  /** The first `max` units of the whole decoding, and whether there were more. */
  function Extracted<S>(d: Decoder<S>, bytes: seq<Byte>, max: nat): Extract {
    match DecodeAll(d, bytes)
    case None => Extract(None, false)
    case Some(units) => Extract(Some(Take(units, max)), |units| > max)
  }

  /** Appending one more piece of decoded text, as the loop does it. */
  function Append(text: seq<CodeUnit>, units: seq<CodeUnit>, max: nat): seq<CodeUnit>
    requires |text| <= max
  {
    var remaining := max - |text|;
    if remaining > 0 then text + Take(units, remaining) else text
  }

  lemma AppendTakes(before: seq<CodeUnit>, units: seq<CodeUnit>, max: nat)
    ensures |Take(before, max)| <= max
    ensures Append(Take(before, max), units, max) == Take(before + units, max)
    ensures |before + units| > max <==> |before| > max || |units| > max - |Take(before, max)|
  {
  }

  // --- writeAll ---

  /** A file whose writes may be short: `accepts` says how many bytes each one takes. */
  class TemporaryFile {
    var bytes: seq<Byte>
    var present: bool
    var tick: nat
    const accepts: (nat, nat) -> int

    constructor (accepts: (nat, nat) -> int)
      ensures bytes == [] && present && this.accepts == accepts
    {
      bytes, present, tick := [], true, 0;
      this.accepts := accepts;
    }

    ghost predicate AlwaysProgresses() {
      forall n, k :: accepts(n, k) > 0
    }

    /** file.write: some prefix of what it is given. */
    method Write(buffer: seq<Byte>) returns (written: int)
      modifies this
      ensures written <= |buffer| && present == old(present) && tick == old(tick) + 1
      ensures written > 0 ==> bytes == old(bytes) + buffer[..written]
      ensures written <= 0 ==> bytes == old(bytes)
      ensures AlwaysProgresses() && |buffer| > 0 ==> written > 0
    {
      var n := accepts(tick, |buffer|);
      written := if n > |buffer| then |buffer| else n;
      tick := tick + 1;
      if written > 0 {
        bytes := bytes + buffer[..written];
      }
    }

    method WriteAll(buffer: seq<Byte>) returns (ok: bool)
      modifies this
      ensures ok ==> bytes == old(bytes) + buffer && present == old(present)
      ensures AlwaysProgresses() ==> ok
    {
      var offset := 0;
      while offset < |buffer|
        invariant 0 <= offset <= |buffer|
        invariant bytes == old(bytes) + buffer[..offset] && present == old(present)
      {
        var written := Write(buffer[offset..]);
        if written <= 0 {
          return false;
        }
        assert buffer[..offset] + buffer[offset..][..written] == buffer[..offset + written];
        offset := offset + written;
      }
      ok := true;
    }

    method Remove()
      modifies this
      ensures !present && bytes == old(bytes)
    {
      present := false;
    }
  }

  // --- upload ---

  datatype UploadError = TooLarge | LengthMismatch | WriteFailed

  datatype Content = Content(size: nat, hash: Sha, extract: Extract)

  datatype Limits = Limits(maxBytes: nat, maxText: nat)

  /** What an upload of these bytes yields, however they arrive. */
  function Outcome<S>(bytes: seq<Byte>, declared: Option<nat>, extract: bool, d: Decoder<S>, limits: Limits): Result<Content, UploadError> {
    if (declared.Some? && declared.value > limits.maxBytes) || |bytes| > limits.maxBytes then Error(TooLarge)
    else if declared.Some? && declared.value != |bytes| then Error(LengthMismatch)
    else Ok(Content(|bytes|, Sha(bytes), if extract then Extracted(d, bytes, limits.maxText) else Extract(None, false)))
  }

  /** The decoder variables of the loop after some bytes. */
  ghost predicate Tracks<S>(d: Decoder<S>, bytes: seq<Byte>, state: Option<S>, text: seq<CodeUnit>, truncated: bool, max: nat) {
    match DecodeFrom(d, d.start, bytes)
    case None => state.None? && text == [] && !truncated
    case Some((s, units)) => state == Some(s) && text == Take(units, max) && (truncated <==> |units| > max)
  }

  lemma TracksOneMore<S>(d: Decoder<S>, bytes: seq<Byte>, chunk: seq<Byte>, s: S, text: seq<CodeUnit>, truncated: bool, max: nat)
    requires Tracks(d, bytes, Some(s), text, truncated, max)
    ensures |text| <= max
    ensures match DecodeFrom(d, s, chunk)
      case None => Tracks(d, bytes + chunk, None, [], false, max)
      case Some((next, units)) =>
        Tracks(d, bytes + chunk, Some(next), Append(text, units, max), truncated || |units| > max - |text|, max)
  {
    DecodeSplits(d, d.start, bytes, chunk);
    var before := DecodeFrom(d, d.start, bytes).value.1;
    var decoded := DecodeFrom(d, s, chunk);
    AppendTakes(before, if decoded.Some? then decoded.value.1 else [], max);
  }

  lemma InvalidStaysInvalid<S>(d: Decoder<S>, bytes: seq<Byte>, chunk: seq<Byte>, max: nat)
    requires Tracks(d, bytes, None, [], false, max)
    ensures Tracks(d, bytes + chunk, None, [], false, max)
  {
    DecodeSplits(d, d.start, bytes, chunk);
  }

  lemma TracksFlush<S>(d: Decoder<S>, bytes: seq<Byte>, s: S, text: seq<CodeUnit>, truncated: bool, max: nat)
    requires Tracks(d, bytes, Some(s), text, truncated, max)
    ensures |text| <= max
    ensures Extracted(d, bytes, max) == match d.flush(s)
      case None => Extract(None, false)
      case Some(units) => Extract(Some(Append(text, units, max)), truncated || |units| > max - |text|)
  {
    var before := DecodeFrom(d, d.start, bytes).value.1;
    AppendTakes(before, if d.flush(s).Some? then d.flush(s).value else [], max);
  }

  /**
   * The streaming loop. Its result is a function of the bytes alone: the chunks they come in and the
   * short writes of the file do not show.
   */
  method UploadStream<S>(
      chunks: seq<seq<Byte>>, declared: Option<nat>, extract: bool, d: Decoder<S>, limits: Limits, file: TemporaryFile)
      returns (result: Result<Content, UploadError>)
    requires file.bytes == [] && file.present
    modifies file
    ensures result != Error(WriteFailed) ==> result == Outcome(Concat(chunks), declared, extract, d, limits)
    ensures file.AlwaysProgresses() ==> result != Error(WriteFailed)
    ensures result.Ok? ==> file.present && file.bytes == Concat(chunks)
    ensures result.Error? ==> !file.present
  {
    if declared.Some? && declared.value > limits.maxBytes {
      file.Remove();
      return Error(TooLarge);
    }
    var sizeBytes := 0;
    var received: seq<Byte> := [];
    var state := if extract then Some(d.start) else None;
    var text: seq<CodeUnit> := [];
    var truncated := false;
    var i := 0;
    while i < |chunks|
      invariant 0 <= i <= |chunks|
      invariant received == Concat(chunks[..i]) && |received| == sizeBytes <= limits.maxBytes
      invariant file.present && file.bytes == received
      invariant if extract then Tracks(d, received, state, text, truncated, limits.maxText) else state.None? && text == [] && !truncated
    {
      var buffer := chunks[i];
      assert chunks[..i + 1][..i] == chunks[..i];
      sizeBytes := sizeBytes + |buffer|;
      if sizeBytes > limits.maxBytes {
        ConcatGrows(chunks, i + 1);
        file.Remove();
        return Error(TooLarge);
      }
      var ok := file.WriteAll(buffer);
      if !ok {
        file.Remove();
        return Error(WriteFailed);
      }
      state, text, truncated := DecodeChunk(d, received, buffer, state, text, truncated, limits.maxText);
      received := received + buffer;
      i := i + 1;
    }
    assert chunks[..i] == chunks;
    if declared.Some? && sizeBytes != declared.value {
      file.Remove();
      return Error(LengthMismatch);
    }
    var extracted := Extract(None, false);
    if state.Some? {
      TracksFlush(d, received, state.value, text, truncated, limits.maxText);
      match d.flush(state.value)
      case None =>
      case Some(finalText) =>
        var remaining := limits.maxText - |text|;
        extracted := Extract(Some(Append(text, finalText, limits.maxText)), truncated || |finalText| > remaining);
    }
    result := Ok(Content(sizeBytes, Sha(received), extracted));
  }

  /** One chunk through the decoder, which is dropped for good on the first invalid byte. */
  method DecodeChunk<S>(
      d: Decoder<S>, ghost seen: seq<Byte>, buffer: seq<Byte>, state: Option<S>, text: seq<CodeUnit>, truncated: bool, max: nat)
      returns (nextState: Option<S>, nextText: seq<CodeUnit>, nextTruncated: bool)
    requires Tracks(d, seen, state, text, truncated, max) || (state.None? && text == [] && !truncated)
    ensures Tracks(d, seen, state, text, truncated, max) ==> Tracks(d, seen + buffer, nextState, nextText, nextTruncated, max)
    ensures state.None? ==> nextState.None? && nextText == text && nextTruncated == truncated
  {
    if state.None? {
      if Tracks(d, seen, state, text, truncated, max) { InvalidStaysInvalid(d, seen, buffer, max); }
      return None, text, truncated;
    }
    TracksOneMore(d, seen, buffer, state.value, text, truncated, max);
    match DecodeFrom(d, state.value, buffer)
    case None => nextState, nextText, nextTruncated := None, [], false;
    case Some((s, decoded)) =>
      var remaining := max - |text|;
      nextState, nextText := Some(s), Append(text, decoded, max);
      nextTruncated := truncated || |decoded| > remaining;
  }

  lemma {:induction false} ConcatGrows<T>(chunks: seq<seq<T>>, i: nat)
    requires i <= |chunks|
    ensures |Concat(chunks[..i])| <= |Concat(chunks)|
    decreases |chunks|
  {
    if i < |chunks| {
      var init := chunks[..|chunks| - 1];
      assert init[..i] == chunks[..i];
      ConcatGrows(init, i);
    } else {
      assert chunks[..i] == chunks;
    }
  }

  /** An upload fails exactly if it is too large, as declared or received, or not as long as declared. */
  lemma OutcomeIsExact<S>(bytes: seq<Byte>, declared: Option<nat>, extract: bool, d: Decoder<S>, limits: Limits)
    ensures var r := Outcome(bytes, declared, extract, d, limits);
      var tooLarge := |bytes| > limits.maxBytes || (declared.Some? && declared.value > limits.maxBytes);
      && (r == Error(TooLarge) <==> tooLarge)
      && (r == Error(LengthMismatch) <==> !tooLarge && declared.Some? && declared.value != |bytes|)
      && (r.Ok? <==> |bytes| <= limits.maxBytes && (declared.None? || declared.value == |bytes|))
      && (r.Ok? ==> r.value.size == |bytes| && r.value.hash == Sha(bytes))
      && (r.Ok? && !extract ==> r.value.extract.text.None? && !r.value.extract.truncated)
  {
  }

  /** An upload that fits stores text exactly when its bytes decode, and flags it exactly when it is cut. */
  lemma ExtractIsExact<S>(bytes: seq<Byte>, declared: Option<nat>, d: Decoder<S>, limits: Limits)
    requires Outcome(bytes, declared, true, d, limits).Ok?
    ensures var e := Outcome(bytes, declared, true, d, limits).value.extract;
      var all := DecodeAll(d, bytes);
      && (e.text.None? <==> all.None?)
      && (e.truncated <==> all.Some? && |all.value| > limits.maxText)
      && (all.Some? ==> e.text.value <= all.value && |e.text.value| == if e.truncated then limits.maxText else |all.value|)
  {
  }
}
