/** The figures the panel hands to its renderer, reduced to the fields whose
    content the panel decides: title, layout images, marker traces and the
    animation (frames, slider steps, frame duration). Styling is left out. */
module Scenes {
  import opened Wrappers
  import opened IsoDates
  import opened Artifacts

  /** A labelled point at normalized image coordinates; the coordinates are
      carried through unexamined. */
  datatype FocusPoint = FocusPoint(name: string, x: real, y: real)

  /** The configured table of focus points, which is empty. */
  const FocusPoints: seq<FocusPoint> := []

  /** One scatter trace of markers with text labels. */
  datatype MarkerTrace = MarkerTrace(xs: seq<real>, ys: seq<real>, texts: seq<string>)

  /** An animation frame: its name (the date tag) and its single image. */
  datatype Frame = Frame(name: string, image: Payload)

  /** A slider step: the frame it jumps to, its caption and the frame
      duration it animates with. */
  datatype SliderStep = SliderStep(frame: string, caption: string, frameDurationMs: nat)

  datatype Animation = Animation(frames: seq<Frame>, steps: seq<SliderStep>, playFrameDurationMs: nat)

  datatype Figure = Figure(
    title: Option<string>,
    images: seq<Payload>,
    traces: seq<MarkerTrace>,
    animation: Option<Animation>)

  /** Duration of each frame, both for the slider and for the play button. */
  const FrameDurationMs: nat := 500

  /** A fresh figure with nothing in it. */
  const EmptyFigure: Figure := Figure(None, [], [], None)

  /** The names of an animation's frames, in order. */
  function FrameNames(a: Animation): (names: seq<string>)
    ensures |names| == |a.frames|
    ensures forall i :: 0 <= i < |a.frames| ==> names[i] == a.frames[i].name
  {
    seq(|a.frames|, i requires 0 <= i < |a.frames| => a.frames[i].name)
  }

  /** The markers for a table of focus points, one per entry in table order. */
  function Markers(points: seq<FocusPoint>): (t: MarkerTrace)
    ensures |t.xs| == |points| && |t.ys| == |points| && |t.texts| == |points|
    ensures forall i :: 0 <= i < |points| ==>
      t.xs[i] == points[i].x && t.ys[i] == points[i].y && t.texts[i] == points[i].name
  {
    MarkerTrace(
      seq(|points|, i requires 0 <= i < |points| => points[i].x),
      seq(|points|, i requires 0 <= i < |points| => points[i].y),
      seq(|points|, i requires 0 <= i < |points| => points[i].name))
  }

  /** Adds the focus points to a figure: nothing when the table is empty,
      otherwise one trace holding every point, and no other change. */
  function AddFocusPoints(fig: Figure, points: seq<FocusPoint>): (r: Figure)
    ensures |points| == 0 ==> r == fig
    ensures r.title == fig.title && r.images == fig.images && r.animation == fig.animation
    ensures |points| > 0 ==> |r.traces| == |fig.traces| + 1 && r.traces[..|fig.traces|] == fig.traces
    ensures |points| > 0 ==> r.traces[|fig.traces|] == Markers(points)
  {
    if |points| == 0 then fig
    else fig.(traces := fig.traces + [Markers(points)])
  }

  /** A single-image figure. Without an image it only carries the title; the
      focus points are added only when there is an image. */
  function BuildStatic(src: Payload, title: string, points: seq<FocusPoint>): (r: Figure)
    ensures r.title == Some(title) && r.animation.None?
    ensures src.None? ==> r.images == [] && r.traces == []
    ensures src.Some? ==> r.images == [src]
    ensures src.Some? ==> (r.traces == [] <==> |points| == 0)
    ensures src.Some? && |points| > 0 ==> r.traces == [Markers(points)]
  {
    if src.None? then
      EmptyFigure.(title := Some(title))
    else
      var fig := EmptyFigure.(images := [src]);
      AddFocusPoints(fig, points).(title := Some(title))
  }

  /** An animation over `dates`: one frame per date in the given order, the
      first date's image as the initial picture, one slider step per frame
      captioned with the frame's date as `DD/MM/YYYY`, and 500 ms per frame. */
  function BuildAnimation(files: set<string>, v: Variable, dates: seq<string>, points: seq<FocusPoint>): (r: Figure)
    requires |dates| > 0
    requires forall i :: 0 <= i < |dates| ==> ValidIsoDate(dates[i])
    ensures r.title.None? && r.animation.Some?
    ensures FrameNames(r.animation.value) == dates
    ensures forall i :: 0 <= i < |dates| ==>
      r.animation.value.frames[i].image == ResolveImage(files, v, Some(dates[i]))
    ensures r.images == [r.animation.value.frames[0].image]
    ensures |r.animation.value.steps| == |dates|
    ensures forall i :: 0 <= i < |dates| ==>
      var step := r.animation.value.steps[i];
      step.frame == dates[i] && step.caption == FormatLabelBr(dates[i]) && step.frameDurationMs == 500
    ensures r.animation.value.playFrameDurationMs == 500
    ensures r.traces == [] <==> |points| == 0
    ensures |points| > 0 ==> r.traces == [Markers(points)]
  {
    var src0 := ResolveImage(files, v, Some(dates[0]));
    var frames := seq(|dates|, i requires 0 <= i < |dates| => Frame(dates[i], ResolveImage(files, v, Some(dates[i]))));
    var steps := seq(|frames|, i requires 0 <= i < |frames| =>
      SliderStep(frames[i].name, FormatLabelBr(frames[i].name), FrameDurationMs));
    var fig := Figure(None, [src0], [], Some(Animation(frames, steps, FrameDurationMs)));
    AddFocusPoints(fig, points)
  }

  /** Every slider caption reads back to the name of the frame it selects. */
  lemma SliderCaptionsName(files: set<string>, v: Variable, dates: seq<string>, points: seq<FocusPoint>, i: nat)
    requires |dates| > 0
    requires forall k :: 0 <= k < |dates| ==> ValidIsoDate(dates[k])
    requires i < |dates|
    ensures var a := BuildAnimation(files, v, dates, points).animation.value;
      IsoFromLabelBr(a.steps[i].caption) == a.frames[i].name
  {
    LabelRoundTrip(dates[i]);
  }
}
