/** From the camera's frames to the bytes a viewer decodes. */
module Delivery {
  import opened Basics
  import opened Framing
  import opened Multipart
  import opened Viewers
  import Camera

  function FramesOf(got: seq<Viewers.Delivery>): seq<Frame> {
    if got == [] then [] else FramesOf(got[..|got| - 1]) + [got[|got| - 1].frame]
  }

  lemma {:induction false} FramesOfAt(got: seq<Viewers.Delivery>)
    ensures |FramesOf(got)| == |got|
    ensures forall i :: 0 <= i < |got| ==> FramesOf(got)[i] == got[i].frame
  {
    if got == [] {
    } else {
      FramesOfAt(got[..|got| - 1]);
    }
  }

  /**
   Whenever a viewer's connection is cut, what it has received decodes to published frames, each one
   whole, no frame twice, in the order they were published.
   */
  lemma ViewerDecodesPublished(ms: seq<Move>, v: nat, capacity: nat)
    requires Run(ms) && v in After(ms).viewers
    ensures var h, got := After(ms), After(ms).viewers[v].got;
            var decoded := Decode(MJPEG, Cut(Stream(MJPEG, FramesOf(got)), capacity)).0;
            && |decoded| <= |got|
            && (forall i :: 0 <= i < |decoded| ==>
                  0 < got[i].count <= |h.published| && decoded[i] == h.published[got[i].count - 1])
            && (forall i, j :: 0 <= i < j < |decoded| ==> got[i].count < got[j].count)
  {
    var h, got := After(ms), After(ms).viewers[v].got;
    StreamsRefineLog(ms, v);
    FramesOfAt(got);
    CutDecodes(FramesOf(got), capacity);
    var decoded := Decode(MJPEG, Cut(Stream(MJPEG, FramesOf(got)), capacity)).0;
    forall i | 0 <= i < |decoded|
      ensures 0 < got[i].count <= |h.published| && decoded[i] == h.published[got[i].count - 1]
    {
      assert Genuine(h.published, got[i]);
    }
  }

  /**
   From camera to viewer: if what the reader has handed over so far is a beginning of what its sessions hold,
   the viewer decodes frames of those sessions, in their order and none twice.
   */
  lemma ViewerDecodesCamera(sessions: seq<Camera.Session>, ms: seq<Move>, v: nat, capacity: nat)
    requires Run(ms) && v in After(ms).viewers && Published(ms) <= Camera.AllFrames(sessions)
    ensures var got := After(ms).viewers[v].got;
            var decoded := Decode(MJPEG, Cut(Stream(MJPEG, FramesOf(got)), capacity)).0;
            var frames := Camera.AllFrames(sessions);
            && |decoded| <= |got|
            && (forall i :: 0 <= i < |decoded| ==>
                  0 < got[i].count <= |frames| && decoded[i] == frames[got[i].count - 1])
            && (forall i, j :: 0 <= i < j < |decoded| ==> got[i].count < got[j].count)
  {
    ViewerDecodesPublished(ms, v, capacity);
    PublishedLog(ms);
  }
}
