/**
 * The viewing side: the connect button's session control over the fields
 * `isStreaming` and `streamJob`, and the receive loop that hands each decoded
 * image to the screen.
 */
module Viewer {
  import opened Wrappers

  /** The port `startViewing` connects to; the streaming side listens on the same one. */
  const ViewerPort: nat := 8080

  /**
   * Kotlin's `Char.isWhitespace()`: Java whitespace or a Unicode space, line or
   * paragraph separator. The characters an address is written with never are.
   */
  function IsWhitespace(c: char): (r: bool)
    ensures c == ' ' || c == '\t' || c == '\n' || c == '\r' || c == '\U{00A0}' || c == '\U{3000}' ==> r
    ensures '0' <= c <= '9' || 'a' <= c <= 'z' || 'A' <= c <= 'Z' || c == '.' || c == ':' || c == '-' ==> !r
  {
    var n := c as int;
    (0x09 <= n <= 0x0D) || (0x1C <= n <= 0x20) || n == 0xA0 || n == 0x1680
    || (0x2000 <= n <= 0x200A) || n == 0x2028 || n == 0x2029 || n == 0x202F
    || n == 0x205F || n == 0x3000
  }

  /**
   * Kotlin's `isBlank()`: empty, or whitespace only. An address with any digit,
   * letter, dot, colon or hyphen in it, even with spaces around it, is not blank.
   */
  function IsBlank(s: string): (blank: bool)
    ensures s == [] ==> blank
    ensures (forall i :: 0 <= i < |s| ==> s[i] == ' ' || s[i] == '\t' || s[i] == '\n') ==> blank
    ensures (exists i :: 0 <= i < |s| && ('0' <= s[i] <= '9' || 'a' <= s[i] <= 'z' || 'A' <= s[i] <= 'Z' || s[i] == '.' || s[i] == ':' || s[i] == '-')) ==> !blank
  {
    forall i :: 0 <= i < |s| ==> IsWhitespace(s[i])
  }

  /** The coroutine `Job` that `startViewing` launches; `cancel()` marks it inactive. */
  class Job {
    const host: string
    const port: nat
    var cancelled: bool

    /** `coroutineScope.launch { … Socket(ip, 8080) … }`. */
    constructor Launch(ip: string)
      ensures host == ip && port == ViewerPort && !cancelled
    {
      host := ip;
      port := ViewerPort;
      cancelled := false;
    }

    /** Not cancelled. A job whose coroutine has already finished also satisfies this. */
    predicate NotCancelled()
      reads this
    {
      !cancelled
    }

    method Cancel()
      modifies this
      ensures cancelled
    {
      cancelled := true;
    }
  }

  /**
   * The session state of the watch screen. `launched` is the ghost history of
   * every job the screen started.
   */
  class WatchScreen {
    var isStreaming: bool
    var streamJob: Job?
    ghost var launched: seq<Job>

    /**
     * Only the newest job is held, every earlier one was cancelled, and the
     * screen counts as streaming only while the held job is not cancelled.
     */
    ghost predicate Valid()
      reads this, launched
    {
      (launched == [] ==> streamJob == null)
      && (launched != [] ==> streamJob == launched[|launched| - 1])
      && (forall i :: 0 <= i < |launched| - 1 ==> launched[i].cancelled)
      && (isStreaming ==> streamJob != null && streamJob.NotCancelled())
    }

    constructor ()
      ensures Valid() && !isStreaming && streamJob == null && launched == []
    {
      isStreaming := false;
      streamJob := null;
      launched := [];
    }

    /** `stopCurrentStream`: clear the flag, then cancel the held job if there is one. */
    method StopCurrentStream()
      requires Valid()
      modifies this, streamJob
      ensures Valid()
      ensures !isStreaming
      ensures streamJob == old(streamJob) && launched == old(launched)
      ensures streamJob != null ==> streamJob.cancelled
    {
      isStreaming := false;
      if streamJob != null {
        streamJob.Cancel();
      }
    }

    /**
     * The connect button: a blank address changes nothing (the screen only
     * shows a hint); otherwise the current session is stopped and a new job
     * connecting to `ip` is started and held.
     */
    method OnConnectClick(ip: string)
      requires Valid()
      modifies this, streamJob
      ensures Valid()
      ensures IsBlank(ip) ==>
        isStreaming == old(isStreaming) && streamJob == old(streamJob) && launched == old(launched)
        && (streamJob != null ==> streamJob.cancelled == old(streamJob.cancelled))
      ensures !IsBlank(ip) ==>
        isStreaming && fresh(streamJob) && streamJob.host == ip && streamJob.NotCancelled()
        && launched == old(launched) + [streamJob]
        && (old(streamJob) != null ==> old(streamJob).cancelled)
    {
      if !IsBlank(ip) {
        StopCurrentStream();
        isStreaming := true;
        var job := new Job.Launch(ip);
        streamJob := job;
        launched := launched + [job];
      }
    }

    /** `onDestroyView`: the session is stopped; the view binding is dropped (not modelled). */
    method OnDestroyView()
      requires Valid()
      modifies this, streamJob
      ensures Valid() && !isStreaming
      ensures streamJob == old(streamJob) && launched == old(launched)
      ensures streamJob != null ==> streamJob.cancelled
    {
      StopCurrentStream();
    }
  }

  /** What one `BitmapFactory.decodeStream` call did: returned a bitmap or null, or threw. */
  datatype DecodeCall<Image> = Returned(bitmap: Option<Image>) | Threw

  /** The `k`-th decode call; past the given calls the stream is at its end and decoding returns null. */
  function DecodeAt<Image>(calls: seq<DecodeCall<Image>>, k: nat): DecodeCall<Image>
  {
    if k < |calls| then calls[k] else Returned(None)
  }

  /** What a viewing session did: images shown, decode calls made, whether it closed its socket, failure toasts. */
  datatype Session<Image> = Session(shown: seq<Image>, decodes: nat, socketClosed: bool, failureToasts: nat)

  /**
   * The coroutine body of `startViewing`. `connects` says whether `Socket(ip,
   * 8080)` succeeds; `calls` are the decoder's successive results; the loop
   * condition `isStreaming && isActive` holds for its first `stopAt` checks and
   * fails from then on (once the job is cancelled it stays inactive).
   */
  method StartViewing<Image>(connects: bool, calls: seq<DecodeCall<Image>>, stopAt: nat) returns (s: Session<Image>)
    ensures s.decodes <= stopAt
    ensures !connects ==> s.decodes == 0
    ensures |s.shown| <= s.decodes <= |s.shown| + 1
    ensures forall i :: 0 <= i < |s.shown| ==> DecodeAt(calls, i) == Returned(Some(s.shown[i]))
    ensures connects && s.decodes == |s.shown| ==> s.decodes == stopAt
    ensures s.decodes == |s.shown| + 1 ==> DecodeAt(calls, |s.shown|).Threw? || DecodeAt(calls, |s.shown|).bitmap.None?
    ensures s.failureToasts == (if !connects || (s.decodes > 0 && DecodeAt(calls, s.decodes - 1).Threw?) then 1 else 0)
    ensures s.socketClosed <==> s.failureToasts == 0
  {
    if !connects {
      return Session([], 0, false, 1);
    }
    var shown: seq<Image> := [];
    var decodes := 0;
    var threw := false;
    while decodes < stopAt
      invariant decodes <= stopAt
      invariant |shown| == decodes
      invariant forall i :: 0 <= i < |shown| ==> DecodeAt(calls, i) == Returned(Some(shown[i]))
    {
      var call := DecodeAt(calls, decodes);
      decodes := decodes + 1;
      if call.Threw? {
        threw := true;
        break;
      } else if call.bitmap.None? {
        break;
      }
      shown := shown + [call.bitmap.value];
    }
    if threw {
      return Session(shown, decodes, false, 1);
    }
    s := Session(shown, decodes, true, 0);
  }
}
