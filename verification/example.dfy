/** A worked directory: two daily images with a gap between them and one
    accumulated image covering the period. */
module Example {
  import opened Wrappers
  import opened Strings
  import opened IsoDates
  import opened Artifacts
  import opened Scenes
  import opened Panel

  const Day10: string := "2025-11-10"
  const Day11: string := "2025-11-11"
  const Day12: string := "2025-11-12"
  /** `divino_prec_acumulada_2025-11-10_a_2025-11-12.png` */
  const AccumName: string := AccumPrefix + "2025-11-10_a_2025-11-12" + ImageExt

  function ExampleFiles(): set<string>
  {
    {DailyFileName(Day10), DailyFileName(Day12), AccumName}
  }

  lemma ExampleDatesValid()
    ensures ValidIsoDate(Day10) && ValidIsoDate(Day11) && ValidIsoDate(Day12)
    ensures ChronoLess(Day10, Day12)
  {
    assert Day10[0..4] == "2025" && Day10[5..7] == "11" && Day10[8..10] == "10";
    assert Day11[0..4] == "2025" && Day11[5..7] == "11" && Day11[8..10] == "11";
    assert Day12[0..4] == "2025" && Day12[5..7] == "11" && Day12[8..10] == "12";
  }

  lemma ExampleMembership(d: string)
    ensures ValidIsoDate(d) && DailyFileName(d) in ExampleFiles() <==> d == Day10 || d == Day12
  {
    ExampleDatesValid();
    DailyFileNameTag(d);
    DailyFileNameTag(Day10);
    DailyFileNameTag(Day12);
    GlobRoundTrip(AccumPrefix, "2025-11-10_a_2025-11-12", ImageExt);
    AccumulatedNeverDated(AccumName);
  }

  /** The catalogue of the worked directory lists the two daily dates in
      order; the accumulated image contributes nothing. */
  lemma ExampleCatalogue()
    ensures AvailableDates(ExampleFiles()) == [Day10, Day12]
  {
    ExampleDatesValid();
    LexIsChronological(Day10, Day12);
    var listing := [Day10, Day12];
    assert StrictlyAscending(listing);
    forall d
      ensures d in listing <==> ValidIsoDate(d) && DailyFileName(d) in ExampleFiles()
    {
      ExampleMembership(d);
    }
    CatalogueIsUnique(ExampleFiles(), listing);
  }

  lemma ExampleAccumCandidates()
    ensures AccumCandidates(ExampleFiles()) == {AccumName}
  {
    ExampleDatesValid();
    GlobRoundTrip(AccumPrefix, "2025-11-10_a_2025-11-12", ImageExt);
    DailyNotAccumulated(Day10);
    DailyNotAccumulated(Day12);
  }

  /** Startup on the worked directory succeeds with the later date as
      default. */
  lemma ExampleStartup()
    ensures Startup(Listing(ExampleFiles()), FocusPoints).Success?
    ensures Startup(Listing(ExampleFiles()), FocusPoints).value.dates == [Day10, Day12]
    ensures Startup(Listing(ExampleFiles()), FocusPoints).value.defaultDate == Day12
  {
    ExampleCatalogue();
  }

  /** The daily map of the day without an image is the placeholder: a
      title and no image. */
  lemma ExampleMissingDay(app: App)
    requires Ready(app) && app.files == ExampleFiles()
    ensures ValidIsoDate(Day11)
    ensures Route(app, Some(Day11), Some(Prec), DailyMode).Success?
    ensures Route(app, Some(Day11), Some(Prec), DailyMode).value.images == []
  {
    ExampleDatesValid();
    ExampleMembership(Day11);
  }

  /** The accumulated map shows the accumulated file whatever the mode. */
  lemma ExampleAccumulated(app: App, mode: string)
    requires Ready(app) && app.files == ExampleFiles()
    ensures Route(app, None, Some(PrecAcum), mode).Success?
    ensures Route(app, None, Some(PrecAcum), mode).value.images == [Some(AccumName)]
  {
    ExampleAccumCandidates();
    var r := Route(app, None, Some(PrecAcum), mode).value;
    assert |r.images| == 1 && r.images[0] in r.images;
  }

  /** The animation has the two dates, in order. */
  lemma ExampleAnimation(mode: string)
    requires mode != DailyMode
    ensures var st := Startup(Listing(ExampleFiles()), FocusPoints);
      st.Success? && FrameNames(Route(st.value, None, Some(Prec), mode).value.animation.value) == [Day10, Day12]
  {
    ExampleStartup();
  }
}
