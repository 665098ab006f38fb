/**
 Where an encode starts: the clamp of the requested segment and the seek position of
 adapters/media/ffmpeg_transcoder.py, over exact reals.
 */
module TranscodeSeek {
  import opened Wrappers

  function Ceil(x: real): int {
    -((-x).Floor)
  }

  lemma CeilBounds(x: real)
    ensures (Ceil(x) - 1) as real < x <= Ceil(x) as real
  {
  }

  /** The playlist position of a segment. */
  function At(segment: int, seconds: int): real {
    segment as real * seconds as real
  }

  lemma AtNext(segment: int, seconds: int)
    ensures At(segment + 1, seconds) == At(segment, seconds) + seconds as real
  {
  }

  lemma AtMonotone(a: int, b: int, seconds: int)
    requires a <= b && seconds >= 0
    ensures At(a, seconds) <= At(b, seconds)
  {
  }

  /** ceil(d / s) is the number of segments of a file: the last one starts before the end. */
  lemma LastSegment(duration: real, seconds: int)
    requires duration > 0.0 && seconds >= 2
    ensures Ceil(duration / seconds as real) >= 1
    ensures At(Ceil(duration / seconds as real) - 1, seconds) < duration <= At(Ceil(duration / seconds as real), seconds)
  {
    var s := seconds as real;
    var x := duration / s;
    CeilBounds(x);
    assert x * s == duration;
    assert x > 0.0;
    var n := Ceil(x);
    assert (n - 1) as real * s < x * s;
    assert x * s <= n as real * s;
  }

  /** The start segment: the requested one, or the last one that starts inside the file. */
  method PlanStart(requested: int, segmentSeconds: Option<int>, defaultSeconds: int, duration: Option<real>)
    returns (start: int, seconds: int, probed: real)
    ensures seconds == var s := if segmentSeconds.Some? then segmentSeconds.value else defaultSeconds; if s < 2 then 2 else s
    ensures probed == if duration.Some? && duration.value > 0.0 then duration.value else 0.0
    ensures 0 <= start && (requested < 0 ==> start == 0) && (requested >= 0 ==> start <= requested)
    ensures probed == 0.0 && requested >= 0 ==> start == requested
    ensures probed > 0.0 ==> At(start, seconds) < probed
    ensures probed > 0.0 && start < requested ==> probed <= At(start + 1, seconds)
  {
    seconds := if segmentSeconds.Some? then segmentSeconds.value else defaultSeconds;
    if seconds < 2 {
      seconds := 2;
    }
    start := if requested < 0 then 0 else requested;
    probed := 0.0;
    if duration.Some? {
      probed := if duration.value > 0.0 then duration.value else 0.0;
    }
    if probed > 0.0 {
      LastSegment(probed, seconds);
      var maxStart := Ceil(probed / seconds as real) - 1;
      if maxStart < 0 {
        maxStart := 0;
      }
      AtMonotone(if start < maxStart then start else maxStart, maxStart, seconds);
      if start > maxStart {
        start := maxStart;
      }
    }
  }

  /** The input seek: the segment's position, pulled back so that one segment remains. The two
      differ only for a final partial segment, by less than its length. */
  method SeekSeconds(start: int, seconds: int, duration: real) returns (seek: real)
    requires 0 <= start && seconds >= 2
    requires duration > 0.0 ==> At(start, seconds) < duration
    ensures 0.0 <= seek <= At(start, seconds)
    ensures duration > 0.0 ==> seek <= (if duration - seconds as real > 0.0 then duration - seconds as real else 0.0)
    ensures duration <= 0.0 || At(start + 1, seconds) <= duration ==> seek == At(start, seconds)
    ensures duration > 0.0 && duration < At(start + 1, seconds) ==> At(start, seconds) - seek < seconds as real
  {
    AtMonotone(0, start, seconds);
    AtNext(start, seconds);
    seek := At(start, seconds);
    if duration > 0.0 {
      var latest := if duration - seconds as real > 0.0 then duration - seconds as real else 0.0;
      if latest < seek {
        seek := latest;
      }
    }
  }
}
