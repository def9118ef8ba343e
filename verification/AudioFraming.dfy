/** The microphone tap: samples in blocks of any size, frames of exactly 960 out, and
    nothing across a push-to-talk gap. */
module AudioFraming {
  import opened Wrappers

  const FRAME := 960

  type Sample = real
  type Samples = seq<Sample>

  function Flat(frames: seq<Samples>): Samples {
    if frames == [] then [] else Flat(frames[..|frames| - 1]) + frames[|frames| - 1]
  }

  predicate AllFull(frames: seq<Samples>) {
    forall i :: 0 <= i < |frames| ==> |frames[i]| == FRAME
  }

  /** A stretch of speech between two gated blocks: everything heard, the frames posted
      from it, and the samples left in the buffer at its end. */
  datatype Segment = Segment(heard: Samples, frames: seq<Samples>, left: Samples)

  /** Nothing heard is lost, repeated or reordered, and every frame is full. */
  predicate Conserves(s: Segment) {
    && AllFull(s.frames) && |s.left| <= FRAME
    && Flat(s.frames) + s.left == s.heard
  }

  function FramesOf(segments: seq<Segment>): seq<Samples> {
    if segments == [] then [] else FramesOf(segments[..|segments| - 1]) + segments[|segments| - 1].frames
  }

  lemma FlatStep(frames: seq<Samples>, frame: Samples)
    ensures Flat(frames + [frame]) == Flat(frames) + frame
  {
    assert (frames + [frame])[..|frames|] == frames;
  }

  lemma FramesStep(segments: seq<Segment>, s: Segment)
    ensures FramesOf(segments + [s]) == FramesOf(segments) + s.frames
  {
    assert (segments + [s])[..|segments|] == segments;
  }

  class SttTapProcessor {
    var buffer: array<Sample>
    var offset: nat
    var transmitting: bool

    /** Frames posted to the main thread. */
    ghost var posted: seq<Samples>
    /** Finished segments, and the one in progress: what was heard and posted in it. */
    ghost var finished: seq<Segment>
    ghost var heard: Samples
    ghost var frames: seq<Samples>

    ghost predicate Valid()
      reads this, buffer
    {
      && buffer.Length == FRAME && offset <= FRAME
      && Conserves(Segment(heard, frames, buffer[..offset]))
      && (forall i :: 0 <= i < |finished| ==> Conserves(finished[i]))
      && posted == FramesOf(finished) + frames
    }

    constructor ()
      ensures Valid() && fresh(buffer) && posted == [] && finished == [] && heard == [] && transmitting
    {
      buffer := new Sample[FRAME];
      offset, transmitting := 0, true;
      posted, finished, heard, frames := [], [], [], [];
    }

    /** A `ptt` message from the main thread. */
    method SetTransmitting(active: bool)
      requires Valid()
      modifies this`transmitting
      ensures Valid() && transmitting == active
    {
      transmitting := active;
    }

    method CopyInto(target: array<Sample>, samples: Samples, start: nat)
      requires start + |samples| <= target.Length
      modifies target
      ensures target[..start] == old(target[..start])
      ensures target[start..start + |samples|] == samples
    {
      for i := 0 to |samples|
        invariant target[..start] == old(target[..start])
        invariant target[start..start + i] == samples[..i]
      {
        target[start + i] := samples[i];
        assert target[start..start + i + 1] == target[start..start + i] + [samples[i]];
      }
    }

    /** Gated: drop the block and whatever was buffered, so that the next frame starts
        with speech from after the gap. */
    method Discard()
      requires Valid()
      modifies this`offset, this`finished, this`heard, this`frames
      ensures Valid() && offset == 0 && heard == []
      ensures finished == old(finished) + [Segment(old(heard), old(frames), old(buffer[..offset]))]
    {
      FramesStep(finished, Segment(heard, frames, buffer[..offset]));
      finished := finished + [Segment(heard, frames, buffer[..offset])];
      heard, frames := [], [];
      offset := 0;
      assert buffer[..0] == [];
      assert posted == FramesOf(finished) + [];
    }

    /** Transfer the full buffer to the main thread and start an empty one. */
    method Post()
      requires Valid() && offset == FRAME
      modifies this`buffer, this`offset, this`posted, this`frames
      ensures Valid() && offset == 0 && fresh(buffer)
      ensures posted == old(posted) + [old(buffer[..])]
      ensures frames == old(frames) + [old(buffer[..])]
    {
      var frame := buffer[..];
      assert frame == buffer[..offset];
      FlatStep(frames, frame);
      posted := posted + [frame];
      frames := frames + [frame];
      buffer := new Sample[FRAME];
      offset := 0;
      assert buffer[..0] == [];
      assert posted == FramesOf(finished) + frames;
    }

    /** Append samples that fit. */
    method Append(samples: Samples)
      requires Valid() && offset + |samples| <= FRAME
      modifies this`offset, this`heard, buffer
      ensures Valid() && offset == old(offset) + |samples| && heard == old(heard) + samples
    {
      CopyInto(buffer, samples, offset);
      assert buffer[..offset + |samples|] == old(buffer[..offset]) + samples;
      offset := offset + |samples|;
      heard := heard + samples;
      assert Flat(frames) + buffer[..offset] == Flat(frames) + old(buffer[..offset]) + samples;
    }

    /** An open block: fill the buffer, post it when full, keep the leftover. The copy of
        the leftover throws exactly when it exceeds a whole frame; then it is lost. */
    method Transmit(samples: Samples) returns (ok: bool)
      requires Valid()
      modifies this`buffer, this`offset, this`posted, this`heard, this`frames, buffer
      ensures Valid()
      ensures ok <==> |samples| <= (FRAME - old(offset)) + FRAME
      ensures heard == old(heard) + if ok then samples else samples[..FRAME - old(offset)]
      ensures |samples| <= FRAME && old(offset) < FRAME ==> offset < FRAME
    {
      var remaining := FRAME - offset;
      var toCopy := if |samples| < remaining then |samples| else remaining;
      Append(samples[..toCopy]);
      if offset >= FRAME {
        Post();
        if toCopy < |samples| {
          var leftover := samples[toCopy..];
          if |leftover| > FRAME {
            return false;
          }
          Append(leftover);
          assert old(heard) + samples[..toCopy] + leftover == old(heard) + samples;
          return true;
        }
      }
      assert samples[..toCopy] == samples;
      return true;
    }

    /** One block from the audio graph, or none when the input is disconnected. */
    method Process(input: Option<Samples>) returns (r: Result<bool, ()>)
      requires Valid()
      modifies this`buffer, this`offset, this`posted, this`finished, this`heard, this`frames, buffer
      ensures Valid()
      ensures r == if transmitting && input.Some? && |input.value| > (FRAME - old(offset)) + FRAME
                   then Failure(()) else Success(true)
      ensures input.None? ==> finished == old(finished) && heard == old(heard) && posted == old(posted)
      ensures input.Some? && !transmitting ==>
                && posted == old(posted) && heard == [] && offset == 0
                && finished == old(finished) + [Segment(old(heard), old(frames), old(buffer[..offset]))]
      ensures input.Some? && transmitting ==> finished == old(finished)
      ensures input.Some? && transmitting && r.Success? ==> heard == old(heard) + input.value
      ensures input.Some? && |input.value| <= FRAME && old(offset) < FRAME ==> offset < FRAME
    {
      if input.None? {
        return Success(true);
      }
      if !transmitting {
        Discard();
        return Success(true);
      }
      var ok := Transmit(input.value);
      r := if ok then Success(true) else Failure(());
    }
  }

  // ----- Frames are determined by the speech alone

  lemma {:induction false} FlatLength(frames: seq<Samples>)
    requires AllFull(frames)
    ensures |Flat(frames)| == FRAME * |frames|
  {
    if frames != [] {
      FlatLength(frames[..|frames| - 1]);
    }
  }

  lemma {:induction false} FrameAt(frames: seq<Samples>, i: nat)
    requires AllFull(frames) && i < |frames|
    ensures FRAME * (i + 1) <= |Flat(frames)| && Flat(frames)[FRAME * i..FRAME * (i + 1)] == frames[i]
  {
    FlatLength(frames);
    var before := frames[..|frames| - 1];
    FlatLength(before);
    if i < |frames| - 1 {
      FrameAt(before, i);
      assert Flat(frames)[FRAME * i..FRAME * (i + 1)] == Flat(before)[FRAME * i..FRAME * (i + 1)];
    }
  }

  /** How the speech was cut into blocks does not matter: two segments with the same
      samples and less than a frame left over posted the same frames. */
  lemma FramesDependOnlyOnSpeech(a: Segment, b: Segment)
    requires Conserves(a) && Conserves(b) && a.heard == b.heard
    requires |a.left| < FRAME && |b.left| < FRAME
    ensures a == b
  {
    FlatLength(a.frames);
    FlatLength(b.frames);
    assert |a.heard| == FRAME * |a.frames| + |a.left| && |b.heard| == FRAME * |b.frames| + |b.left|;
    assert |a.frames| == |b.frames| && |a.left| == |b.left|;
    var n := FRAME * |a.frames|;
    assert a.left == a.heard[n..] && b.left == b.heard[n..];
    assert Flat(a.frames) == a.heard[..n] && Flat(b.frames) == b.heard[..n];
    forall i | 0 <= i < |a.frames| ensures a.frames[i] == b.frames[i] {
      FrameAt(a.frames, i);
      FrameAt(b.frames, i);
    }
  }
}
