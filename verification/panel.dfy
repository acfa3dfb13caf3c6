/** The panel's startup (the catalogue of dates and its default) and the
    callback that turns a (date, variable, mode) selection into a figure. */
module Panel {
  import opened Wrappers
  import opened Strings
  import opened IsoDates
  import opened Artifacts
  import opened Scenes

  /** What the panel holds after startup: the directory snapshot, the
      catalogue of dates, the default date and the focus-point table. */
  datatype App = App(files: set<string>, dates: seq<string>, defaultDate: string, points: seq<FocusPoint>)

  /** The error the callback raises: a date the label formatter cannot parse. */
  datatype RouteError = UnparsableDate(tag: string)

  /** The mode value selecting the single-day map; any other value animates. */
  const DailyMode: string := "dia"

  /** Separator between the variable caption and the date in a daily title. */
  const TitleSeparator: string := " — "

  /** What the callback relies on: a non-empty catalogue of parseable dates. */
  predicate Ready(app: App)
  {
    |app.dates| > 0 && forall i :: 0 <= i < |app.dates| ==> ValidIsoDate(app.dates[i])
  }

  /** Startup: list the dates, refuse an empty catalogue, and take its last
      entry as the default. */
  function Startup(dir: ImageDir, points: seq<FocusPoint>): (r: Result<App, StartupError>)
    ensures dir.Missing? ==> r == Failure(DirectoryNotFound)
    ensures dir.Listing? ==>
      (r == Failure(NoDailyDates) <==> !exists d :: ValidIsoDate(d) && DailyFileName(d) in dir.files)
    ensures r.Failure? ==> dir.Missing? || !exists d :: ValidIsoDate(d) && DailyFileName(d) in dir.files
    ensures r.Success? ==> Ready(r.value)
    ensures r.Success? ==> r.value.files == dir.files && r.value.points == points
    ensures r.Success? ==> StrictlyAscending(r.value.dates)
    ensures r.Success? ==> forall d :: d in r.value.dates <==> ValidIsoDate(d) && DailyFileName(d) in dir.files
  {
    match ListAvailableDates(dir)
    case Failure(e) => Failure(e)
    case Success(dates) =>
      if |dates| == 0 then
        Failure(NoDailyDates)
      else
        assert dates[0] in dates;
        Success(App(dir.files, dates, dates[|dates| - 1], points))
  }

  /** The default date is a catalogue entry no other entry comes after in
      the calendar. */
  lemma DefaultIsLatest(dir: ImageDir, points: seq<FocusPoint>)
    ensures var r := Startup(dir, points);
      r.Success? ==>
        && r.value.defaultDate in r.value.dates
        && forall d :: d in r.value.dates && d != r.value.defaultDate ==> ChronoLess(d, r.value.defaultDate)
  {
    var r := Startup(dir, points);
    if r.Success? {
      var app := r.value;
      var n := |app.dates|;
      assert app.defaultDate == app.dates[n - 1];
      forall d | d in app.dates && d != app.defaultDate
        ensures ChronoLess(d, app.defaultDate)
      {
        var i :| 0 <= i < n && app.dates[i] == d;
        assert LexLess(app.dates[i], app.dates[n - 1]);
        LexIsChronological(d, app.defaultDate);
      }
    }
  }

  /** The callback. No variable gives an empty figure; the accumulated
      variable always gives its static map; the daily variable gives the
      map of the selected date in the daily mode and the animation over the
      whole catalogue in any other mode. */
  function Route(app: App, dateIso: Option<string>, varKey: Option<Variable>, mode: string): (r: Result<Figure, RouteError>)
    requires Ready(app)
    ensures varKey.None? ==> r == Success(EmptyFigure)
    ensures r.Failure? <==>
      varKey == Some(Prec) && mode == DailyMode && dateIso.Some? && !ValidIsoDate(dateIso.value)
    ensures varKey == Some(PrecAcum) ==>
      && r.Success?
      && r.value.title == Some(Info(PrecAcum).caption)
      && r.value.animation.None?
      && |r.value.images| == (if AccumCandidates(app.files) == {} then 0 else 1)
      && forall p :: p in r.value.images ==> p.Some? && IsGreatest(p.value, AccumCandidates(app.files))
    ensures varKey == Some(Prec) && mode == DailyMode && dateIso.None? ==> r == Success(EmptyFigure)
    ensures varKey == Some(Prec) && mode == DailyMode && dateIso.Some? && ValidIsoDate(dateIso.value) ==>
      && r.Success?
      && r.value.title == Some(Info(Prec).caption + TitleSeparator + FormatLabelBr(dateIso.value))
      && r.value.animation.None?
      && r.value.images == (if DailyFileName(dateIso.value) in app.files then [Some(DailyFileName(dateIso.value))] else [])
    ensures varKey == Some(Prec) && mode != DailyMode ==>
      && r.Success?
      && r.value.animation.Some?
      && FrameNames(r.value.animation.value) == app.dates
  {
    if varKey.None? then
      Success(EmptyFigure)
    else
      var v := varKey.value;
      var info := Info(v);
      if v == PrecAcum then
        var src := ResolveImage(app.files, PrecAcum, None);
        Success(BuildStatic(src, info.caption, app.points))
      else if mode == DailyMode then
        if dateIso.None? then
          Success(EmptyFigure)
        else if !ValidIsoDate(dateIso.value) then
          Failure(UnparsableDate(dateIso.value))
        else
          var title := info.caption + TitleSeparator + FormatLabelBr(dateIso.value);
          var src := ResolveImage(app.files, v, dateIso);
          Success(BuildStatic(src, title, app.points))
      else
        Success(BuildAnimation(app.files, v, app.dates, app.points))
  }

  /** For the accumulated variable the date and the mode make no difference. */
  lemma AccumIgnoresDateAndMode(app: App, d1: Option<string>, d2: Option<string>, m1: string, m2: string)
    requires Ready(app)
    ensures Route(app, d1, Some(PrecAcum), m1) == Route(app, d2, Some(PrecAcum), m2)
  {
  }

  /** In animation mode the selected date makes no difference. */
  lemma AnimationIgnoresDate(app: App, d1: Option<string>, d2: Option<string>, mode: string)
    requires Ready(app) && mode != DailyMode
    ensures Route(app, d1, Some(Prec), mode) == Route(app, d2, Some(Prec), mode)
  {
  }

  /** After startup, the animation has exactly one frame per catalogued date,
      in ascending order, each showing that date's daily image. */
  lemma AnimationCoversCatalogue(dir: ImageDir, points: seq<FocusPoint>, dateIso: Option<string>, mode: string)
    requires mode != DailyMode
    ensures var st := Startup(dir, points);
      st.Success? ==>
        var a := Route(st.value, dateIso, Some(Prec), mode).value.animation.value;
        && FrameNames(a) == AvailableDates(dir.files)
        && forall i :: 0 <= i < |a.frames| ==> a.frames[i].image == Some(DailyFileName(a.frames[i].name))
  {
    var st := Startup(dir, points);
    if st.Success? {
      var app := st.value;
      CatalogueIsUnique(dir.files, app.dates);
      var fig := BuildAnimation(app.files, Prec, app.dates, app.points);
      assert Route(app, dateIso, Some(Prec), mode) == Success(fig);
      var a := fig.animation.value;
      forall i | 0 <= i < |a.frames|
        ensures a.frames[i].image == Some(DailyFileName(a.frames[i].name))
      {
        var d := app.dates[i];
        assert a.frames[i].name == d;
        assert d in app.dates;
        ResolveMatchesCatalogue(app.files, d);
      }
    }
  }
}
