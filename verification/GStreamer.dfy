/**
 * The playback queue controller and the pipeline primitives beneath it.
 *
 * The media pipeline is reduced to the record the controller observes: its
 * lifecycle state, the "uri" property of its element named "src", its
 * playback position in whole seconds, and whether the "src" element exists.
 * Whether the pipeline accepts a requested state change is not decided here:
 * every operation that asks for one takes a `Verdicts` value saying which
 * target states the pipeline accepts during that call.
 */
module GStreamer {
  import opened Wrappers
  import opened Text

  /** The lifecycle states the pipeline reports as its current state. */
  datatype GstState = Null | Ready | Paused | Playing

  /** The errors the controller and the primitives return, one per message. */
  datatype Error =
    | NoMoreItems                        // "no more items left in the queue"
    | QueueFailed(cause: Error)          // "failed to queue item: ..."
    | NotPlaying                         // "video is not currently playing"
    | AlreadyPlaying                     // "stream is already playing"
    | PauseNotPlaying                    // "stream is not playing. unable to pause"
    | SeekNotPlaying                     // "cannot seek on non-playing stream"
    | NoSourceElement                    // "unable to get source element from pipeline"
    | UriNotSet                          // "Property 'uri' is not a string or does not exist"
    | StateChangeRefused(target: GstState) // set_state returned an error
    | SeekRefused                        // seek_simple returned an error

  /** Which target states the pipeline accepts during one controller call. */
  datatype Verdicts = Verdicts(toNull: bool, toReady: bool, toPaused: bool, toPlaying: bool) {
    predicate Accepts(target: GstState) {
      match target
      case Null => toNull
      case Ready => toReady
      case Paused => toPaused
      case Playing => toPlaying
    }
  }

  /** Turns a missing value into the given error. */
  function GetValueOrError<T>(option: Option<T>, error: Error): (r: Result<T, Error>)
    ensures r.Ok? <==> option.Some?
    ensures r.Ok? ==> option == Some(r.value)
    ensures r.Err? ==> r.error == error
  {
    match option
    case Some(v) => Ok(v)
    case None => Err(error)
  }

  /** A pipeline below Paused holds no stream, so it is back at position 0. */
  function PositionAfter(target: GstState, position: nat): (p: nat)
    ensures target == Paused || target == Playing ==> p == position
    ensures target == Null || target == Ready ==> p == 0
  {
    if target == Null || target == Ready then 0 else position
  }

  class Pipeline {
    var state: GstState
    /** The "uri" property of the "src" element; None until it is first set. */
    var uri: Option<string>
    /** Playback position in seconds. */
    var position: nat
    /** Whether the pipeline has an element named "src". */
    const hasSrc: bool

    constructor (hasSrc: bool)
      ensures this.hasSrc == hasSrc
      ensures state == Null && uri == None && position == 0
    {
      this.hasSrc := hasSrc;
      state := Null;
      uri := None;
      position := 0;
    }
  }

  /** One `set_state` request: the pipeline moves to `target` only if it accepts it. */
  method SetState(p: Pipeline, target: GstState, verdicts: Verdicts) returns (r: Outcome<Error>)
    modifies p
    ensures r.Pass? <==> verdicts.Accepts(target)
    ensures r.Fail? ==> r.error == StateChangeRefused(target)
    ensures r.Pass? ==> p.state == target && p.position == PositionAfter(target, old(p.position))
    ensures r.Fail? ==> p.state == old(p.state) && p.position == old(p.position)
    ensures p.uri == old(p.uri)
  {
    if verdicts.Accepts(target) {
      p.state := target;
      p.position := PositionAfter(target, p.position);
      r := Pass;
    } else {
      r := Fail(StateChangeRefused(target));
    }
  }

  /**
   * Starts the stream: refused when already Playing; otherwise goes through
   * Ready (unless it is Paused) to Playing and returns the source URI.
   */
  method StartPipeline(p: Pipeline, verdicts: Verdicts) returns (r: Result<string, Error>)
    modifies p
    ensures p.uri == old(p.uri)
    ensures old(p.state) == Playing ==> r == Err(AlreadyPlaying) && unchanged(p)
    ensures old(p.state) != Playing && !p.hasSrc ==> r == Err(NoSourceElement) && unchanged(p)
    ensures old(p.state) != Playing && p.hasSrc && p.uri.None? ==> r == Err(UriNotSet) && unchanged(p)
    ensures old(p.state) != Playing && p.hasSrc && p.uri.Some? ==>
      var viaReady := old(p.state) != Paused;
      && (r.Ok? <==> (!viaReady || verdicts.toReady) && verdicts.toPlaying)
      && (r.Ok? ==> r.value == p.uri.value && p.state == Playing)
      && (viaReady && !verdicts.toReady ==> r == Err(StateChangeRefused(Ready)) && p.state == old(p.state))
      && ((!viaReady || verdicts.toReady) && !verdicts.toPlaying ==>
            r == Err(StateChangeRefused(Playing)) && p.state == (if viaReady then Ready else Paused))
      && p.position == (if viaReady && verdicts.toReady then 0 else old(p.position))
  {
    if p.state == Playing {
      return Err(AlreadyPlaying);
    }
    var src := GetValueOrError(if p.hasSrc then Some(p) else None, NoSourceElement);
    if src.Err? {
      return Err(src.error);
    }
    var setUri := GetValueOrError(p.uri, UriNotSet);
    if setUri.Err? {
      return Err(setUri.error);
    }
    if p.state != Paused {
      var toReady := SetState(p, Ready, verdicts);
      if toReady.Fail? {
        return Err(toReady.error);
      }
    }
    var toPlaying := SetState(p, Playing, verdicts);
    if toPlaying.Fail? {
      return Err(toPlaying.error);
    }
    return Ok(setUri.value);
  }

  /**
   * The position a seek of `delta` seconds lands on, never before the start
   * of the stream. This is the corrected computation; `SeekTargetAsWritten`
   * is the unsigned arithmetic of the source.
   */
  function SeekTarget(current: nat, delta: int): (target: nat)
    ensures target == if current + delta < 0 then 0 else current + delta
    ensures delta < 0 ==> target <= current
    ensures delta >= 0 ==> target >= current
  {
    var magnitude: nat := if delta < 0 then -delta else delta;
    if delta < 0 then (if current >= magnitude then current - magnitude else 0)
    else current + magnitude
  }

  const U64_MODULUS: int := 0x1_0000_0000_0000_0000

  /**
   * The source's computation of the new position on u64: current + |delta|
   * or current - |delta|, wrapping around modulo 2^64 as a release build
   * does (a debug build panics instead).
   */
  function SeekTargetAsWritten(current: nat, delta: int): (target: nat)
    requires current < U64_MODULUS && IsI64(delta)
    ensures target < U64_MODULUS
    ensures (target - (current + delta)) % U64_MODULUS == 0
  {
    var magnitude: nat := if delta < 0 then -delta else delta;
    if delta < 0 then (current - magnitude) % U64_MODULUS
    else (current + magnitude) % U64_MODULUS
  }

  /** Where no wrap-around happens, the source's arithmetic and the corrected one agree. */
  lemma SeekTargetsAgreeWithoutWrap(current: nat, delta: int)
    requires current < U64_MODULUS && IsI64(delta)
    requires 0 <= current + delta < U64_MODULUS
    ensures SeekTargetAsWritten(current, delta) == SeekTarget(current, delta)
  {
  }

  /**
   * A backward seek past the start of the stream: as written, the u64
   * subtraction wraps around to near 2^64 seconds, far AFTER the current
   * position (in a release build; a debug build panics on the subtraction).
   * Converting that many seconds to nanoseconds then overflows as well, so
   * no seek is issued either way. The corrected target is the start of the
   * stream.
   */
  lemma SeekPastStartWraps(current: nat, delta: int)
    requires current < U64_MODULUS && IsI64(delta)
    requires delta < 0 && current + delta < 0
    ensures SeekTargetAsWritten(current, delta) == U64_MODULUS + current + delta
    ensures SeekTargetAsWritten(current, delta) > current
    ensures SeekTarget(current, delta) == 0
  {
  }

  /** Seeking 30 seconds back from 10 seconds in. */
  lemma SeekBackThirtyFromTen()
    ensures SeekTargetAsWritten(10, -30) == 0xFFFF_FFFF_FFFF_FFEC
    ensures SeekTarget(10, -30) == 0
  {
    SeekPastStartWraps(10, -30);
  }

  /**
   * Seeks by `seekSeconds` relative to the current position; refused unless
   * Playing. `accepted` is whether the pipeline accepts the flushing seek.
   */
  method SeekPipeline(p: Pipeline, seekSeconds: int, accepted: bool) returns (r: Outcome<Error>)
    requires IsI64(seekSeconds)
    modifies p
    ensures p.state == old(p.state) && p.uri == old(p.uri)
    ensures old(p.state) != Playing ==> r == Fail(SeekNotPlaying) && p.position == old(p.position)
    ensures old(p.state) == Playing && !p.hasSrc ==> r == Fail(NoSourceElement) && p.position == old(p.position)
    ensures old(p.state) == Playing && p.hasSrc ==>
      && (r.Pass? <==> accepted)
      && (r.Fail? ==> r.error == SeekRefused)
      && p.position == if accepted then SeekTarget(old(p.position), seekSeconds) else old(p.position)
  {
    if p.state != Playing {
      return Fail(SeekNotPlaying);
    }
    var src := GetValueOrError(if p.hasSrc then Some(p) else None, NoSourceElement);
    if src.Err? {
      return Fail(src.error);
    }
    var newPos := SeekTarget(p.position, seekSeconds);
    if !accepted {
      return Fail(SeekRefused);
    }
    p.position := newPos;
    return Pass;
  }

  /** Goes to Ready and then to Null. */
  method StopPipeline(p: Pipeline, verdicts: Verdicts) returns (r: Outcome<Error>)
    modifies p
    ensures p.uri == old(p.uri)
    ensures r.Pass? <==> verdicts.toReady && verdicts.toNull
    ensures r.Pass? ==> p.state == Null && p.position == 0
    ensures !verdicts.toReady ==>
      r == Fail(StateChangeRefused(Ready)) && p.state == old(p.state) && p.position == old(p.position)
    ensures verdicts.toReady && !verdicts.toNull ==>
      r == Fail(StateChangeRefused(Null)) && p.state == Ready && p.position == 0
  {
    r := SetState(p, Ready, verdicts);
    if r.Fail? {
      return;
    }
    r := SetState(p, Null, verdicts);
  }

  /** Pauses the stream; refused unless Playing. */
  method PausePipeline(p: Pipeline, verdicts: Verdicts) returns (r: Outcome<Error>)
    modifies p
    ensures p.uri == old(p.uri) && p.position == old(p.position)
    ensures old(p.state) != Playing ==> r == Fail(PauseNotPlaying) && p.state == old(p.state)
    ensures old(p.state) == Playing ==>
      && (r.Pass? <==> verdicts.toPaused)
      && p.state == (if verdicts.toPaused then Paused else Playing)
      && (r.Fail? ==> r.error == StateChangeRefused(Paused))
  {
    if p.state != Playing {
      return Fail(PauseNotPlaying);
    }
    r := SetState(p, Paused, verdicts);
  }

  /** Sets the "uri" property of the "src" element; fails when there is no such element. */
  method SetSourceUri(p: Pipeline, uriPath: string) returns (r: Outcome<Error>)
    modifies p
    ensures p.state == old(p.state) && p.position == old(p.position)
    ensures p.hasSrc ==> r == Pass && p.uri == Some(uriPath)
    ensures !p.hasSrc ==> r == Fail(NoSourceElement) && unchanged(p)
  {
    var src := GetValueOrError(if p.hasSrc then Some(p) else None, NoSourceElement);
    if src.Err? {
      return Fail(src.error);
    }
    p.uri := Some(uriPath);
    return Pass;
  }

  /** One queued media entry; `id` stands for the UUID drawn when the item is created. */
  datatype QueueItem = QueueItem(displayName: string, uri: string, id: nat)

  predicate IsAsciiLetter(c: char) {
    'a' <= c <= 'z' || 'A' <= c <= 'Z'
  }

  predicate IsSchemeChar(c: char) {
    IsAsciiLetter(c) || IsDigit(c) || c == '+' || c == '-' || c == '.'
  }

  /**
   * The part of URL parsing the model keeps: a scheme (a letter, then
   * letters, digits, '+', '-' or '.') followed by ':'.
   */
  predicate IsUrl(s: string) {
    ':' in s &&
    var i := IndexOf(s, ':');
    i > 0 && IsAsciiLetter(s[0]) && forall k :: 0 < k < i ==> IsSchemeChar(s[k])
  }

  /** An absolute filesystem path becomes a file URL; anything else is taken as a URL. */
  function NormalizeUri(uri: string): (r: string)
    ensures "/" <= uri ==> r == "file://" + uri
    ensures !("/" <= uri) ==> r == uri
  {
    if "/" <= uri then "file://" + uri else uri
  }

  /** An absolute path always yields a parsable URL, so adding one never panics. */
  lemma AbsolutePathIsUrl(path: string)
    requires "/" <= path
    ensures IsUrl(NormalizeUri(path))
  {
    var s := NormalizeUri(path);
    IndexOfAfterFree("file", ':', "//" + path);
    assert s == "file" + [':'] + ("//" + path);
  }

  /** `retain(|u| u.id != id)` on a queue: drops every item with that id. */
  function Without(q: seq<QueueItem>, id: nat): (r: seq<QueueItem>)
    ensures |r| <= |q|
    ensures forall k :: 0 <= k < |r| ==> r[k].id != id
  {
    if q == [] then []
    else if q[0].id == id then Without(q[1..], id)
    else [q[0]] + Without(q[1..], id)
  }

  /** Removal works element by element, so it keeps the order of what it keeps. */
  lemma {:induction false} WithoutAppend(a: seq<QueueItem>, b: seq<QueueItem>, id: nat)
    ensures Without(a + b, id) == Without(a, id) + Without(b, id)
    decreases |a|
  {
    if a == [] {
      assert a + b == b;
    } else {
      WithoutAppend(a[1..], b, id);
      assert (a + b)[0] == a[0];
      assert (a + b)[1..] == a[1..] + b;
    }
  }

  /** An item survives removal exactly when it was queued and has another id. */
  lemma {:induction false} WithoutMembership(q: seq<QueueItem>, id: nat, x: QueueItem)
    ensures x in Without(q, id) <==> x in q && x.id != id
    decreases |q|
  {
    if q != [] {
      WithoutMembership(q[1..], id, x);
      assert q == [q[0]] + q[1..];
    }
  }

  /** Removing an id that is not queued leaves the queue as it was. */
  lemma {:induction false} WithoutAbsent(q: seq<QueueItem>, id: nat)
    requires forall k :: 0 <= k < |q| ==> q[k].id != id
    ensures Without(q, id) == q
    decreases |q|
  {
    if q != [] {
      WithoutAbsent(q[1..], id);
    }
  }

  predicate DistinctIds(q: seq<QueueItem>) {
    forall j, k :: 0 <= j < k < |q| ==> q[j].id != q[k].id
  }

  /** With distinct ids, removing the id of the item at `k` removes exactly that item. */
  lemma RemoveOneOfDistinct(q: seq<QueueItem>, k: nat)
    requires k < |q| && DistinctIds(q)
    ensures Without(q, q[k].id) == q[..k] + q[k + 1..]
    ensures |Without(q, q[k].id)| == |q| - 1
  {
    var id := q[k].id;
    assert q == q[..k] + ([q[k]] + q[k + 1..]);
    WithoutAppend(q[..k], [q[k]] + q[k + 1..], id);
    WithoutAppend([q[k]], q[k + 1..], id);
    WithoutAbsent(q[..k], id);
    WithoutAbsent(q[k + 1..], id);
  }

  /**
   * The controller: a FIFO of queued items, the item currently loaded into
   * the pipeline, and the pipeline. `nextId` is the source of fresh ids.
   */
  class PlayQueue {
    const pipeline: Pipeline
    var uris: seq<QueueItem>
    var currentItem: Option<QueueItem>
    var nextId: nat

    /** Every id was handed out before, and no id is queued twice or both queued and current. */
    ghost predicate Valid()
      reads this
    {
      && (forall k :: 0 <= k < |uris| ==> uris[k].id < nextId)
      && DistinctIds(uris)
      && (currentItem.Some? ==>
            currentItem.value.id < nextId && forall k :: 0 <= k < |uris| ==> uris[k].id != currentItem.value.id)
    }

    constructor (pipeline: Pipeline)
      ensures Valid()
      ensures this.pipeline == pipeline && uris == [] && currentItem == None
    {
      this.pipeline := pipeline;
      uris := [];
      currentItem := None;
      nextId := 0;
    }

    /** Appends a new item with a fresh id at the tail and returns it. */
    method AddUri(uri: string, displayName: string) returns (r: Result<QueueItem, Error>)
      requires Valid()
      requires IsUrl(NormalizeUri(uri))
      modifies this
      ensures Valid()
      ensures r.Ok? && r.value.displayName == displayName && r.value.uri == NormalizeUri(uri)
      ensures uris == old(uris) + [r.value]
      ensures forall k :: 0 <= k < |old(uris)| ==> old(uris)[k].id != r.value.id
      ensures old(currentItem).Some? ==> old(currentItem).value.id != r.value.id
      ensures currentItem == old(currentItem) && nextId == old(nextId) + 1
    {
      var item := QueueItem(displayName, NormalizeUri(uri), nextId);
      nextId := nextId + 1;
      uris := uris + [item];
      return Ok(item);
    }

    /** Drops every queued item with this id; always succeeds. */
    method RemoveUri(id: nat) returns (r: Outcome<Error>)
      requires Valid()
      modifies this
      ensures Valid()
      ensures r == Pass
      ensures uris == Without(old(uris), id)
      ensures currentItem == old(currentItem) && nextId == old(nextId)
    {
      uris := Without(uris, id);
      forall k | 0 <= k < |uris| ensures uris[k] in old(uris) {
        WithoutMembership(old(uris), id, uris[k]);
      }
      RetainKeepsDistinct(old(uris), id);
      return Pass;
    }

    /** A snapshot of the queue, head first. */
    method GetQueueItems() returns (items: seq<QueueItem>)
      ensures items == uris
    {
      return uris;
    }

    method GetCurrentItem() returns (item: Option<QueueItem>)
      ensures item == currentItem
    {
      return currentItem;
    }

    /**
     * Pops the head and loads it into the pipeline as the current item; if
     * the pipeline refuses the source, the head is pushed back so nothing is
     * lost.
     */
    method QueueNextItem() returns (r: Result<Option<QueueItem>, Error>)
      requires Valid()
      modifies this, pipeline
      ensures Valid() && nextId == old(nextId)
      ensures pipeline.state == old(pipeline.state) && pipeline.position == old(pipeline.position)
      ensures old(uris) == [] ==>
        r == Err(NoMoreItems) && uris == old(uris) && currentItem == old(currentItem) && unchanged(pipeline)
      ensures old(uris) != [] && !pipeline.hasSrc ==>
        && r == Err(QueueFailed(NoSourceElement))
        && uris == old(uris) && currentItem == old(currentItem) && unchanged(pipeline)
      ensures old(uris) != [] && pipeline.hasSrc ==>
        && r == Ok(Some(old(uris)[0]))
        && currentItem == Some(old(uris)[0]) && uris == old(uris)[1..]
        && pipeline.uri == Some(old(uris)[0].uri)
    {
      if uris == [] {
        return Err(NoMoreItems);
      }
      var item := uris[0];
      uris := uris[1..];
      var loaded := SetSourceUri(pipeline, item.uri);
      if loaded.Fail? {
        uris := [item] + uris;
        return Err(QueueFailed(loaded.error));
      }
      currentItem := Some(item);
      return Ok(currentItem);
    }

    /**
     * From Null: dequeues the head and starts the pipeline. From Paused:
     * resumes without touching the queue. From Ready or Playing: changes
     * nothing. Returns the current item.
     */
    method StartPlayback(verdicts: Verdicts) returns (r: Result<Option<QueueItem>, Error>)
      requires Valid()
      modifies this, pipeline
      ensures Valid() && nextId == old(nextId)
      ensures old(pipeline.state) == Null && old(uris) == [] ==>
        r == Err(NoMoreItems) && uris == old(uris) && currentItem == old(currentItem) && unchanged(pipeline)
      ensures old(pipeline.state) == Null && old(uris) != [] && !pipeline.hasSrc ==>
        && r == Err(QueueFailed(NoSourceElement))
        && uris == old(uris) && currentItem == old(currentItem) && unchanged(pipeline)
      ensures old(pipeline.state) == Null && old(uris) != [] && pipeline.hasSrc ==>
        && uris == old(uris)[1..] && currentItem == Some(old(uris)[0])
        && pipeline.uri == Some(old(uris)[0].uri)
        && (r.Ok? <==> verdicts.toReady && verdicts.toPlaying)
        && (r.Ok? ==> r.value == Some(old(uris)[0]) && pipeline.state == Playing && pipeline.position == 0)
        && (!verdicts.toReady ==>
              r == Err(StateChangeRefused(Ready)) && pipeline.state == Null && pipeline.position == old(pipeline.position))
        && (verdicts.toReady && !verdicts.toPlaying ==>
              r == Err(StateChangeRefused(Playing)) && pipeline.state == Ready && pipeline.position == 0)
      ensures old(pipeline.state) == Paused ==>
        && uris == old(uris) && currentItem == old(currentItem)
        && pipeline.uri == old(pipeline.uri) && pipeline.position == old(pipeline.position)
        && (r.Ok? <==> pipeline.hasSrc && pipeline.uri.Some? && verdicts.toPlaying)
        && (r.Ok? ==> r.value == currentItem && pipeline.state == Playing)
        && (r.Err? ==> pipeline.state == Paused)
        && (!pipeline.hasSrc ==> r == Err(NoSourceElement))
        && (pipeline.hasSrc && pipeline.uri.None? ==> r == Err(UriNotSet))
        && (pipeline.hasSrc && pipeline.uri.Some? && !verdicts.toPlaying ==> r == Err(StateChangeRefused(Playing)))
      ensures old(pipeline.state) == Ready || old(pipeline.state) == Playing ==>
        r == Ok(currentItem) && uris == old(uris) && currentItem == old(currentItem) && unchanged(pipeline)
    {
      match pipeline.state {
        case Null =>
          var next := QueueNextItem();
          if next.Err? {
            return Err(next.error);
          }
          var started := StartPipeline(pipeline, verdicts);
          if started.Err? {
            return Err(started.error);
          }
          return Ok(next.value);
        case Paused =>
          var started := StartPipeline(pipeline, verdicts);
          if started.Err? {
            return Err(started.error);
          }
        case Ready =>
        case Playing =>
      }
      return Ok(currentItem);
    }

    /**
     * From Playing, Paused or Ready: drives the pipeline to Null via Ready and
     * clears the current item. From Null: succeeds without doing anything.
     */
    method StopPlayback(verdicts: Verdicts) returns (r: Outcome<Error>)
      requires Valid()
      modifies this, pipeline
      ensures Valid() && nextId == old(nextId)
      ensures uris == old(uris) && pipeline.uri == old(pipeline.uri)
      ensures old(pipeline.state) == Null ==> r == Pass && currentItem == old(currentItem) && unchanged(pipeline)
      ensures old(pipeline.state) != Null ==>
        && (r.Pass? <==> verdicts.toReady && verdicts.toNull)
        && (r.Pass? ==> currentItem == None && pipeline.state == Null && pipeline.position == 0)
        && (r.Fail? ==> currentItem == old(currentItem))
        && (!verdicts.toReady ==>
              r == Fail(StateChangeRefused(Ready))
              && pipeline.state == old(pipeline.state) && pipeline.position == old(pipeline.position))
        && (verdicts.toReady && !verdicts.toNull ==>
              r == Fail(StateChangeRefused(Null)) && pipeline.state == Ready && pipeline.position == 0)
    {
      if pipeline.state != Null {
        var stopped := StopPipeline(pipeline, verdicts);
        if stopped.Fail? {
          return stopped;
        }
        currentItem := None;
      }
      return Pass;
    }

    /** Pauses; refused unless the pipeline is Playing. */
    method PausePlayback(verdicts: Verdicts) returns (r: Outcome<Error>)
      modifies pipeline
      ensures pipeline.uri == old(pipeline.uri) && pipeline.position == old(pipeline.position)
      ensures old(pipeline.state) != Playing ==> r == Fail(NotPlaying) && pipeline.state == old(pipeline.state)
      ensures old(pipeline.state) == Playing ==>
        && (r.Pass? <==> verdicts.toPaused)
        && pipeline.state == (if verdicts.toPaused then Paused else Playing)
        && (r.Fail? ==> r.error == StateChangeRefused(Paused))
    {
      if pipeline.state == Playing {
        var paused := PausePipeline(pipeline, verdicts);
        if paused.Fail? {
          return paused;
        }
      } else {
        return Fail(NotPlaying);
      }
      return Pass;
    }

    /**
     * Stop, then start: whatever was current is dropped and the head of the
     * queue becomes current. `stopping` and `starting` are the pipeline's
     * verdicts during the two halves.
     */
    method SkipVideo(stopping: Verdicts, starting: Verdicts) returns (r: Outcome<Error>)
      requires Valid()
      modifies this, pipeline
      ensures Valid() && nextId == old(nextId)
      ensures old(pipeline.state) != Null && !(stopping.toReady && stopping.toNull) ==>
        && uris == old(uris) && currentItem == old(currentItem) && pipeline.uri == old(pipeline.uri)
        && (!stopping.toReady ==>
              r == Fail(StateChangeRefused(Ready))
              && pipeline.state == old(pipeline.state) && pipeline.position == old(pipeline.position))
        && (stopping.toReady && !stopping.toNull ==>
              r == Fail(StateChangeRefused(Null)) && pipeline.state == Ready && pipeline.position == 0)
      ensures old(pipeline.state) == Null || (stopping.toReady && stopping.toNull) ==>
        var stoppedAt := if old(pipeline.state) == Null then old(pipeline.position) else 0;
        && (old(uris) == [] ==>
              r == Fail(NoMoreItems) && uris == [] && pipeline.state == Null
              && pipeline.uri == old(pipeline.uri) && pipeline.position == stoppedAt
              && currentItem == (if old(pipeline.state) == Null then old(currentItem) else None))
        && (old(uris) != [] && !pipeline.hasSrc ==>
              r == Fail(QueueFailed(NoSourceElement)) && uris == old(uris) && pipeline.state == Null
              && pipeline.uri == old(pipeline.uri) && pipeline.position == stoppedAt
              && currentItem == (if old(pipeline.state) == Null then old(currentItem) else None))
        && (old(uris) != [] && pipeline.hasSrc ==>
              && uris == old(uris)[1..] && currentItem == Some(old(uris)[0])
              && pipeline.uri == Some(old(uris)[0].uri)
              && (r.Pass? <==> starting.toReady && starting.toPlaying)
              && (r.Pass? ==> pipeline.state == Playing && pipeline.position == 0)
              && (!starting.toReady ==>
                    r == Fail(StateChangeRefused(Ready)) && pipeline.state == Null && pipeline.position == stoppedAt)
              && (starting.toReady && !starting.toPlaying ==>
                    r == Fail(StateChangeRefused(Playing)) && pipeline.state == Ready && pipeline.position == 0))
    {
      var stopped := StopPlayback(stopping);
      if stopped.Fail? {
        return stopped;
      }
      var started := StartPlayback(starting);
      if started.Err? {
        return Fail(started.error);
      }
      return Pass;
    }

    /** Seeks the pipeline by `seekSeconds`; refused unless Playing. */
    method SeekVideo(seekSeconds: int, accepted: bool) returns (r: Outcome<Error>)
      requires IsI64(seekSeconds)
      modifies pipeline
      ensures pipeline.state == old(pipeline.state) && pipeline.uri == old(pipeline.uri)
      ensures old(pipeline.state) != Playing ==> r == Fail(SeekNotPlaying) && pipeline.position == old(pipeline.position)
      ensures old(pipeline.state) == Playing && !pipeline.hasSrc ==>
        r == Fail(NoSourceElement) && pipeline.position == old(pipeline.position)
      ensures old(pipeline.state) == Playing && pipeline.hasSrc ==>
        && (r.Pass? <==> accepted)
        && (r.Fail? ==> r.error == SeekRefused)
        && pipeline.position == if accepted then SeekTarget(old(pipeline.position), seekSeconds) else old(pipeline.position)
    {
      r := SeekPipeline(pipeline, seekSeconds, accepted);
    }

    /**
     * What the end-of-stream watcher does for each end-of-stream message:
     * skip to the next item and only log a failure.
     */
    method HandleEndOfStream(stopping: Verdicts, starting: Verdicts)
      requires Valid()
      modifies this, pipeline
      ensures Valid() && nextId == old(nextId)
      ensures old(pipeline.state) != Null && !(stopping.toReady && stopping.toNull) ==>
        && uris == old(uris) && currentItem == old(currentItem) && pipeline.uri == old(pipeline.uri)
        && (!stopping.toReady ==>
              pipeline.state == old(pipeline.state) && pipeline.position == old(pipeline.position))
        && (stopping.toReady && !stopping.toNull ==> pipeline.state == Ready && pipeline.position == 0)
      ensures old(pipeline.state) == Null || (stopping.toReady && stopping.toNull) ==>
        var stoppedAt := if old(pipeline.state) == Null then old(pipeline.position) else 0;
        var keptItem := if old(pipeline.state) == Null then old(currentItem) else None;
        && (old(uris) == [] || !pipeline.hasSrc ==>
              && uris == old(uris) && currentItem == keptItem && pipeline.state == Null
              && pipeline.uri == old(pipeline.uri) && pipeline.position == stoppedAt)
        && (old(uris) != [] && pipeline.hasSrc ==>
              && uris == old(uris)[1..] && currentItem == Some(old(uris)[0])
              && pipeline.uri == Some(old(uris)[0].uri)
              && (starting.toReady && starting.toPlaying ==> pipeline.state == Playing && pipeline.position == 0)
              && (!starting.toReady ==> pipeline.state == Null && pipeline.position == stoppedAt)
              && (starting.toReady && !starting.toPlaying ==> pipeline.state == Ready && pipeline.position == 0))
      ensures multiset(uris) <= multiset(old(uris))
    {
      ghost var before := uris;
      var _ := SkipVideo(stopping, starting);
      if before != [] {
        assert before == [before[0]] + before[1..];
      }
    }
  }

  /** Removal keeps the ids of a queue distinct. */
  lemma {:induction false} RetainKeepsDistinct(q: seq<QueueItem>, id: nat)
    requires DistinctIds(q)
    ensures DistinctIds(Without(q, id))
    decreases |q|
  {
    if q != [] {
      RetainKeepsDistinct(q[1..], id);
      var rest := Without(q[1..], id);
      if q[0].id != id {
        forall k | 0 <= k < |rest| ensures rest[k].id != q[0].id {
          WithoutMembership(q[1..], id, rest[k]);
        }
      }
    }
  }
}
