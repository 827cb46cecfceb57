/**
 * The streaming side's single "latest frame" slot: the nullable field
 * `currentJpeg` that the camera analyzer overwrites with every encoded frame
 * and that each client's send loop reads without clearing.
 */
module LatestFrame {
  import opened Wrappers
  import opened JavaIo

  /** The slot's value after `frames` are stored into it one after another, starting from `slot`. */
  function LatestOf(slot: Option<ByteArray>, frames: seq<ByteArray>): Option<ByteArray>
    decreases |frames|
  {
    if frames == [] then slot else LatestOf(Some(frames[0]), frames[1..])
  }

  /** Latest frame wins: the slot holds the last stored frame, and every earlier one is gone. */
  lemma {:induction false} LatestOfIsLast(slot: Option<ByteArray>, frames: seq<ByteArray>)
    ensures frames == [] ==> LatestOf(slot, frames) == slot
    ensures frames != [] ==> LatestOf(slot, frames) == Some(frames[|frames| - 1])
    decreases |frames|
  {
    if |frames| > 1 {
      LatestOfIsLast(Some(frames[0]), frames[1..]);
    }
  }

  /** Storing `a` and then `b` leaves the slot as storing `b` into the slot `a` left. */
  lemma {:induction false} LatestOfAppend(slot: Option<ByteArray>, a: seq<ByteArray>, b: seq<ByteArray>)
    ensures LatestOf(slot, a + b) == LatestOf(LatestOf(slot, a), b)
    decreases |a|
  {
    if a == [] {
      assert a + b == b;
    } else {
      assert (a + b)[1..] == a[1..] + b;
      LatestOfAppend(Some(a[0]), a[1..], b);
    }
  }

  /** The `currentJpeg` field, with the ghost history of every frame the analyzer stored in it. */
  class FrameSlot {
    var currentJpeg: Option<ByteArray>
    ghost var published: seq<ByteArray>

    /** The field holds the last frame stored, or null when none has been. */
    ghost predicate Valid()
      reads this
    {
      currentJpeg == if published == [] then None else Some(published[|published| - 1])
    }

    /** The field starts out null: no frame has been captured yet. */
    constructor ()
      ensures Valid() && published == [] && currentJpeg == None
    {
      currentJpeg := None;
      published := [];
    }

    /** The analyzer's `currentJpeg = imageProxyToJpeg(imageProxy)`: an unconditional overwrite. */
    method Publish(jpeg: ByteArray)
      requires Valid()
      modifies this
      ensures Valid()
      ensures published == old(published) + [jpeg]
      ensures currentJpeg == Some(jpeg)
    {
      currentJpeg := Some(jpeg);
      published := published + [jpeg];
    }

    /** A send cycle's `val jpegData = currentJpeg`: reads the slot and leaves it as it was. */
    method Peek() returns (snapshot: Option<ByteArray>)
      ensures snapshot == currentJpeg
    {
      snapshot := currentJpeg;
    }
  }

  /** A valid slot holds what storing its whole history into an empty slot leaves. */
  lemma HoldsLatestOfHistory(slot: FrameSlot)
    requires slot.Valid()
    ensures slot.currentJpeg == LatestOf(None, slot.published)
  {
    LatestOfIsLast(None, slot.published);
  }

  /** The camera executor invoking the analyzer once per captured frame, storing each in turn. */
  method PublishEach(slot: FrameSlot, frames: seq<ByteArray>)
    requires slot.Valid()
    modifies slot
    ensures slot.Valid()
    ensures slot.published == old(slot.published) + frames
    ensures slot.currentJpeg == LatestOf(old(slot.currentJpeg), frames)
  {
    for i := 0 to |frames|
      invariant slot.Valid()
      invariant slot.published == old(slot.published) + frames[..i]
      invariant slot.currentJpeg == LatestOf(old(slot.currentJpeg), frames[..i])
    {
      LatestOfAppend(old(slot.currentJpeg), frames[..i], [frames[i]]);
      assert frames[..i + 1] == frames[..i] + [frames[i]];
      slot.Publish(frames[i]);
    }
    assert frames[..|frames|] == frames;
  }
}
