/** The promise-returning `animate(element, properties, duration, easing,
    delay)` of js/animations.js: after `delay` it reads the start values,
    then on every animation frame interpolates opacity and the four
    transform channels, writes them to the element's style, and either asks
    for another frame or resolves the promise.

    Time stamps are reals in milliseconds. The easing curves are left out:
    each frame receives its eased progress as a parameter. The transform is
    a sequence of segments; rendering the numbers as CSS text is left out. */
module AnimationsTween {
  import opened Wrappers
  import opened JsText

  /** The keys `animate` understands in `properties`, with their targets;
      `None` when the key is absent. */
  datatype Props = Props(opacity: Option<real>, transform: Option<string>, y: Option<real>,
                         x: Option<real>, scale: Option<real>, rotation: Option<real>)

  /** `parseFloat` of the element's `data-start-*` attributes; `None` when
      the attribute is missing or does not parse. */
  datatype Dataset = Dataset(startY: Option<real>, startX: Option<real>, startScale: Option<real>,
                             startRotation: Option<real>)

  /** A start and an end value. */
  datatype Track = Track(from: real, to: real)

  /** `startValues` and `endValues` together: which channels were asked
      for, with their two ends. */
  datatype Tracks = Tracks(opacity: Option<Track>, transform: Option<(string, string)>,
                           translateY: Option<Track>, translateX: Option<Track>,
                           scale: Option<Track>, rotation: Option<Track>)

  /** One piece of the composed `transform` string. */
  datatype Segment = TranslateY(px: real) | TranslateX(px: real) | Scale(factor: real) | Rotate(deg: real)
  {
    /** Position of the segment in the composed string. */
    function Rank(): nat
    {
      match this
      case TranslateY(_) => 0
      case TranslateX(_) => 1
      case Scale(_) => 2
      case Rotate(_) => 3
    }
  }

  /** What the tween has written to `element.style.transform`. */
  datatype TransformStyle = Untouched | Composed(segments: seq<Segment>)

  const DefaultTransform := "translateY(0) scale(1) rotate(0deg)"

  /** The parse loop of `animate`: start values with their `|| default`
      fallbacks, end values from `properties`. */
  function StartTracks(props: Props, data: Dataset, computedOpacity: Option<real>,
                       styleTransform: Option<string>): (t: Tracks)
    ensures t.opacity.Some? == props.opacity.Some? && t.transform.Some? == props.transform.Some?
    ensures t.translateY.Some? == props.y.Some? && t.translateX.Some? == props.x.Some?
    ensures t.scale.Some? == props.scale.Some? && t.rotation.Some? == props.rotation.Some?
  {
    Tracks(
      if props.opacity.Some? then Some(Track(OrReal(computedOpacity, 0.0), props.opacity.value)) else None,
      if props.transform.Some? then Some((OrString(styleTransform, DefaultTransform), props.transform.value)) else None,
      if props.y.Some? then Some(Track(OrReal(data.startY, 50.0), props.y.value)) else None,
      if props.x.Some? then Some(Track(OrReal(data.startX, 0.0), props.x.value)) else None,
      if props.scale.Some? then Some(Track(OrReal(data.startScale, 0.95), props.scale.value)) else None,
      if props.rotation.Some? then Some(Track(OrReal(data.startRotation, 0.0), props.rotation.value)) else None)
  }

  /** A requested numeric channel runs from its start value, or from
      `fallback` when that value is missing, unparsable or zero (`x || d`
      on a number), to the requested target. */
  predicate StartsFrom(track: Option<Track>, target: Option<real>, start: Option<real>, fallback: real)
  {
    target.Some? ==>
      track == Some(Track(if start.Some? && start.value != 0.0 then start.value else fallback, target.value))
  }

  /** The `|| default` fallbacks of every channel: opacity from the computed
      style or 0, the transform from the inline style or the identity
      transform, y from 50, x from 0, scale from 0.95 and rotation from 0.
      So an explicit `data-start-y="0"` starts at 50 and an explicit scale 0
      at 0.95; any other parsed value is used as is. A channel that was not
      requested has no track. */
  lemma StartDefaults(props: Props, data: Dataset, computedOpacity: Option<real>, styleTransform: Option<string>)
    ensures var t := StartTracks(props, data, computedOpacity, styleTransform);
      && StartsFrom(t.opacity, props.opacity, computedOpacity, 0.0)
      && (props.transform.Some? ==>
            t.transform == Some((if styleTransform.Some? && styleTransform.value != "" then styleTransform.value
                                 else DefaultTransform, props.transform.value)))
      && StartsFrom(t.translateY, props.y, data.startY, 50.0)
      && StartsFrom(t.translateX, props.x, data.startX, 0.0)
      && StartsFrom(t.scale, props.scale, data.startScale, 0.95)
      && StartsFrom(t.rotation, props.rotation, data.startRotation, 0.0)
      && (props.opacity.None? ==> t.opacity.None?) && (props.transform.None? ==> t.transform.None?)
      && (props.y.None? ==> t.translateY.None?) && (props.x.None? ==> t.translateX.None?)
      && (props.scale.None? ==> t.scale.None?) && (props.rotation.None? ==> t.rotation.None?)
  {
  }

  /** Linear interpolation at eased progress `t`. */
  function Lerp(track: Track, t: real): (v: real)
    ensures t == 0.0 ==> v == track.from
    ensures t == 1.0 ==> v == track.to
    ensures 0.0 <= t <= 1.0 && track.from <= track.to ==> track.from <= v <= track.to
    ensures 0.0 <= t <= 1.0 && track.to <= track.from ==> track.to <= v <= track.from
  {
    ScaledBetween(track.to - track.from, t);
    track.from + (track.to - track.from) * t
  }

  lemma ScaledBetween(d: real, t: real)
    ensures t == 0.0 ==> d * t == 0.0
    ensures t == 1.0 ==> d * t == d
    ensures 0.0 <= t <= 1.0 && d >= 0.0 ==> 0.0 <= d * t <= d
    ensures 0.0 <= t <= 1.0 && d <= 0.0 ==> d <= d * t <= 0.0
  {
    if 0.0 <= t <= 1.0 {
      assert d * (1.0 - t) == d - d * t;
      if d >= 0.0 {
        assert d * (1.0 - t) >= 0.0;
      } else {
        assert (-d) * (1.0 - t) >= 0.0;
        assert (-d) * t >= 0.0;
      }
    }
  }

  /** `Math.min(elapsed / duration, 1)`. */
  function Progress(elapsed: real, duration: real): (p: real)
    requires duration > 0.0
    ensures p <= 1.0
    ensures p < 1.0 <==> elapsed < duration
    ensures elapsed >= 0.0 ==> p >= 0.0
  {
    var q := elapsed / duration;
    assert q * duration == elapsed;
    if q < 1.0 then q else 1.0
  }

  /** The segment of one channel, when it was asked for. */
  function Channel(track: Option<Track>, t: real, rank: nat): (r: seq<Segment>)
    requires rank < 4
    ensures |r| == (if track.Some? then 1 else 0)
    ensures forall k :: 0 <= k < |r| ==> r[k].Rank() == rank && r[k] == Make(rank, Lerp(track.value, t))
  {
    if track.Some? then [Make(rank, Lerp(track.value, t))] else []
  }

  function Make(rank: nat, v: real): (s: Segment)
    requires rank < 4
    ensures s.Rank() == rank
  {
    if rank == 0 then TranslateY(v) else if rank == 1 then TranslateX(v) else if rank == 2 then Scale(v) else Rotate(v)
  }

  /** The channel a rank stands for. */
  function TrackOf(tracks: Tracks, rank: nat): Option<Track>
    requires rank < 4
  {
    if rank == 0 then tracks.translateY else if rank == 1 then tracks.translateX
    else if rank == 2 then tracks.scale else tracks.rotation
  }

  /** The transform segments of one frame: the translateY, translateX,
      scale and rotate channels, in that order, each when it was asked for. */
  function Segments(tracks: Tracks, t: real): (r: seq<Segment>)
    ensures |r| <= 4
    ensures r == [] <==>
      tracks.translateY.None? && tracks.translateX.None? && tracks.scale.None? && tracks.rotation.None?
  {
    Channel(tracks.translateY, t, 0) + Channel(tracks.translateX, t, 1)
      + Channel(tracks.scale, t, 2) + Channel(tracks.rotation, t, 3)
  }

  /** The channels from `rank` on, one after the other. */
  ghost function ChannelsFrom(tracks: Tracks, t: real, rank: nat): seq<Segment>
    requires rank <= 4
    decreases 4 - rank
  {
    if rank == 4 then [] else Channel(TrackOf(tracks, rank), t, rank) + ChannelsFrom(tracks, t, rank + 1)
  }

  /** The channels from `rank` on give their segments in increasing rank,
      from `rank` on, and only for channels that were asked for. */
  lemma {:induction false} ChannelsFromRanks(tracks: Tracks, t: real, rank: nat)
    requires rank <= 4
    ensures var r := ChannelsFrom(tracks, t, rank);
      forall k :: 0 <= k < |r| ==> rank <= r[k].Rank() < 4 && TrackOf(tracks, r[k].Rank()).Some?
    ensures var r := ChannelsFrom(tracks, t, rank);
      forall a, b :: 0 <= a < b < |r| ==> r[a].Rank() < r[b].Rank()
    decreases 4 - rank
  {
    if rank < 4 {
      var rest := ChannelsFrom(tracks, t, rank + 1);
      ChannelsFromRanks(tracks, t, rank + 1);
      if TrackOf(tracks, rank).Some? {
        var r := [Make(rank, Lerp(TrackOf(tracks, rank).value, t))] + rest;
        assert r == ChannelsFrom(tracks, t, rank);
        forall k | 1 <= k < |r| ensures rank <= r[k].Rank() < 4 && TrackOf(tracks, r[k].Rank()).Some? {
          assert r[k] == rest[k - 1];
        }
        forall a, b | 0 <= a < b < |r| ensures r[a].Rank() < r[b].Rank() {
          assert r[b] == rest[b - 1];
          if a > 0 { assert r[a] == rest[a - 1]; }
        }
      } else {
        assert rest == ChannelsFrom(tracks, t, rank);
      }
    }
  }

  /** Every channel from `rank` on that was asked for has a segment. */
  lemma {:induction false} ChannelsFromComplete(tracks: Tracks, t: real, rank: nat)
    requires rank <= 4
    ensures var r := ChannelsFrom(tracks, t, rank);
      forall q :: rank <= q < 4 && TrackOf(tracks, q).Some? ==> exists k :: 0 <= k < |r| && r[k].Rank() == q
    decreases 4 - rank
  {
    if rank < 4 {
      var rest := ChannelsFrom(tracks, t, rank + 1);
      ChannelsFromComplete(tracks, t, rank + 1);
      var c := Channel(TrackOf(tracks, rank), t, rank);
      var r := c + rest;
      assert r == ChannelsFrom(tracks, t, rank);
      forall q | rank <= q < 4 && TrackOf(tracks, q).Some?
        ensures exists k :: 0 <= k < |r| && r[k].Rank() == q
      {
        if q == rank {
          assert r[0] == c[0];
        } else {
          var k :| 0 <= k < |rest| && rest[k].Rank() == q;
          assert r[|c| + k] == rest[k];
        }
      }
    }
  }

  /** Each segment of the channels from `rank` on holds its channel
      interpolated at the eased progress. */
  lemma {:induction false} ChannelsFromValues(tracks: Tracks, t: real, rank: nat)
    requires rank <= 4
    ensures var r := ChannelsFrom(tracks, t, rank);
      forall k :: 0 <= k < |r| ==>
        (rank <= r[k].Rank() < 4 && TrackOf(tracks, r[k].Rank()).Some?
         && r[k] == Make(r[k].Rank(), Lerp(TrackOf(tracks, r[k].Rank()).value, t)))
    decreases 4 - rank
  {
    if rank < 4 {
      var rest := ChannelsFrom(tracks, t, rank + 1);
      ChannelsFromValues(tracks, t, rank + 1);
      if TrackOf(tracks, rank).Some? {
        var r := [Make(rank, Lerp(TrackOf(tracks, rank).value, t))] + rest;
        assert r == ChannelsFrom(tracks, t, rank);
        assert forall k :: 1 <= k < |r| ==> r[k] == rest[k - 1];
      } else {
        assert rest == ChannelsFrom(tracks, t, rank);
      }
    }
  }

  /** The segments of a frame come in the order translateY, translateX,
      scale, rotate; there is one exactly for each channel that was asked
      for, and each holds its channel interpolated at the eased progress. */
  lemma SegmentsInOrder(tracks: Tracks, t: real)
    ensures var r := Segments(tracks, t);
      && (forall a, b :: 0 <= a < b < |r| ==> r[a].Rank() < r[b].Rank())
      && (forall rank :: 0 <= rank < 4 ==>
            ((exists k :: 0 <= k < |r| && r[k].Rank() == rank) <==> TrackOf(tracks, rank).Some?))
      && (forall k :: 0 <= k < |r| ==>
            (TrackOf(tracks, r[k].Rank()).Some?
             && r[k] == Make(r[k].Rank(), Lerp(TrackOf(tracks, r[k].Rank()).value, t))))
  {
    var c0, c1, c2, c3 := Channel(tracks.translateY, t, 0), Channel(tracks.translateX, t, 1),
                          Channel(tracks.scale, t, 2), Channel(tracks.rotation, t, 3);
    assert ChannelsFrom(tracks, t, 3) == c3 + [];
    assert ChannelsFrom(tracks, t, 2) == c2 + (c3 + []);
    assert ChannelsFrom(tracks, t, 1) == c1 + (c2 + (c3 + []));
    assert ChannelsFrom(tracks, t, 0) == c0 + (c1 + (c2 + (c3 + [])));
    assert Segments(tracks, t) == ChannelsFrom(tracks, t, 0);
    ChannelsFromRanks(tracks, t, 0);
    ChannelsFromComplete(tracks, t, 0);
    ChannelsFromValues(tracks, t, 0);
  }

  datatype TweenPhase =
    | Delayed   // the `delay` timer is pending
    | Running   // an animation frame is requested
    | Resolved  // the promise has resolved; no frame is requested

  class Tween {
    const props: Props
    const duration: real
    const delay: int
    var phase: TweenPhase
    var startTime: real
    var tracks: Tracks
    /** `element.style.opacity` as the tween last wrote it (`None`: untouched). */
    var opacity: Option<real>
    var transform: TransformStyle
    /** How many times `resolve()` has been called. */
    var resolutions: nat

    ghost predicate Valid()
      reads this
    {
      duration > 0.0 && resolutions == (if phase == Resolved then 1 else 0)
    }

    /** `animate(element, properties, duration, easing, delay)`: only the
        delay timer is set. */
    constructor (props: Props, duration: real, delay: int)
      requires duration > 0.0
      ensures Valid()
      ensures this.props == props && this.duration == duration && this.delay == delay
      ensures phase == Delayed && opacity == None && transform == Untouched && resolutions == 0
    {
      this.props := props;
      this.duration := duration;
      this.delay := delay;
      phase := Delayed;
      startTime := 0.0;
      tracks := Tracks(None, None, None, None, None, None);
      opacity := None;
      transform := Untouched;
      resolutions := 0;
    }

    /** The delay timer fires at `now`: start values are read and the first
        frame is requested. */
    method Begin(now: real, data: Dataset, computedOpacity: Option<real>, styleTransform: Option<string>)
      requires Valid() && phase == Delayed
      modifies this
      ensures Valid()
      ensures phase == Running && startTime == now
      ensures tracks == StartTracks(props, data, computedOpacity, styleTransform)
      ensures opacity == old(opacity) && transform == old(transform) && resolutions == 0
    {
      startTime := now;
      tracks := StartTracks(props, data, computedOpacity, styleTransform);
      phase := Running;
    }

    /** `tick(currentTime)`, with `eased` the easing curve at this frame's
        progress. Styles are written; the promise resolves on the first
        frame at least `duration` after the start, and only then does the
        tween stop asking for frames. */
    method Tick(now: real, eased: real) returns (progress: real)
      requires Valid() && phase == Running
      modifies this
      ensures Valid()
      ensures progress == Progress(now - startTime, duration) && progress <= 1.0
      ensures opacity == (if tracks.opacity.Some? then Some(Lerp(tracks.opacity.value, eased)) else old(opacity))
      ensures transform == (if Segments(tracks, eased) != [] then Composed(Segments(tracks, eased)) else old(transform))
      ensures phase == (if now - startTime < duration then Running else Resolved)
      ensures resolutions == (if now - startTime < duration then 0 else 1)
      ensures startTime == old(startTime) && tracks == old(tracks)
    {
      progress := Progress(now - startTime, duration);
      if tracks.opacity.Some? {
        opacity := Some(Lerp(tracks.opacity.value, eased));
      }
      var segments := Segments(tracks, eased);
      if segments != [] {
        transform := Composed(segments);
      }
      if progress >= 1.0 {
        phase := Resolved;
        resolutions := resolutions + 1;
      }
    }
  }
}
