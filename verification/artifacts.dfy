/** The image directory as an immutable snapshot of file names, the catalogue
    of forecast dates derived from it, and the resolution of a requested
    variable and date to one image file. */
module Artifacts {
  import opened Wrappers
  import opened Strings
  import opened IsoDates

  /** The two variables the panel offers. */
  datatype Variable = Prec | PrecAcum

  /** The fixed metadata of a variable: its human caption, the prefix of its
      file names, and whether its images are selected by date. */
  datatype VarInfo = VarInfo(caption: string, prefix: string, usesDate: bool)

  const ImageExt: string := ".png"
  const DailyPrefix: string := "divino_prec_"
  const AccumPrefix: string := "divino_prec_acumulada_"

  function Info(v: Variable): VarInfo
  {
    match v
    case Prec => VarInfo("Precipitação diária (mm)", DailyPrefix, true)
    case PrecAcum => VarInfo("Precipitação acumulada no período (mm)", AccumPrefix, false)
  }

  /** The image directory as it was found at startup. */
  datatype ImageDir = Missing | Listing(files: set<string>)

  /** The two conditions that abort startup. */
  datatype StartupError = DirectoryNotFound | NoDailyDates

  /** An inline image: `Some(name)` stands for the encoded contents of the
      file `name`; `None` is the empty string returned when nothing was found. */
  type Payload = Option<string>

  /** The name of the daily image for date tag `d`. */
  function DailyFileName(d: string): string
  {
    DailyPrefix + d + ImageExt
  }

  /** A name the daily glob `divino_prec_*.png` matches. */
  predicate IsDailyCandidate(name: string)
  {
    MatchesGlob(name, DailyPrefix, ImageExt)
  }

  /** The candidate date of a daily-glob match: the stem with the prefix
      removed. */
  function DateTag(name: string): string
    requires IsDailyCandidate(name)
  {
    Wildcard(name, DailyPrefix, ImageExt)
  }

  lemma DailyFileNameTag(d: string)
    ensures IsDailyCandidate(DailyFileName(d))
    ensures DateTag(DailyFileName(d)) == d
  {
    GlobRoundTrip(DailyPrefix, d, ImageExt);
  }

  /** The set of date tags collected from the directory: a tag is kept when
      its daily image is present and the tag parses as a date. */
  function DateSet(files: set<string>): (ds: set<string>)
    ensures forall d :: d in ds <==> ValidIsoDate(d) && DailyFileName(d) in files
  {
    var ds := set f | f in files && IsDailyCandidate(f) && ValidIsoDate(DateTag(f)) :: DateTag(f);
    forall d
      ensures d in ds <==> ValidIsoDate(d) && DailyFileName(d) in files
    {
      DailyFileNameTag(d);
    }
    ds
  }

  /** The catalogue of forecast dates: `sorted` of the collected set. */
  function AvailableDates(files: set<string>): (r: seq<string>)
    ensures StrictlyAscending(r)
    ensures forall d :: d in r <==> ValidIsoDate(d) && DailyFileName(d) in files
  {
    SortSet(DateSet(files))
  }

  /** The date listing, failing when the directory does not exist. */
  function ListAvailableDates(dir: ImageDir): (r: Result<seq<string>, StartupError>)
    ensures dir.Missing? <==> r == Failure(DirectoryNotFound)
    ensures r.Success? <==> dir.Listing?
    ensures r.Success? ==> StrictlyAscending(r.value)
    ensures r.Success? ==> forall d :: d in r.value <==> ValidIsoDate(d) && DailyFileName(d) in dir.files
  {
    match dir
    case Missing => Failure(DirectoryNotFound)
    case Listing(files) => Success(AvailableDates(files))
  }

  /** The catalogue is the only strictly ascending listing of the valid
      dates present: any other such listing equals it. */
  lemma CatalogueIsUnique(files: set<string>, other: seq<string>)
    requires StrictlyAscending(other)
    requires forall d :: d in other <==> ValidIsoDate(d) && DailyFileName(d) in files
    ensures other == AvailableDates(files)
  {
    AscendingUnique(other, AvailableDates(files));
  }

  /** Accumulated images also match the daily glob, but their tag starts with
      `acumulada_`, so none of them ever enters the catalogue. */
  lemma AccumulatedNeverDated(name: string)
    requires MatchesGlob(name, AccumPrefix, ImageExt)
    ensures IsDailyCandidate(name)
    ensures !ValidIsoDate(DateTag(name))
  {
    var w := Wildcard(name, AccumPrefix, ImageExt);
    var tag := "acumulada_" + w;
    assert AccumPrefix == DailyPrefix + "acumulada_";
    assert name == DailyPrefix + tag + ImageExt;
    DailyFileNameTag(tag);
    assert DateTag(name)[0] == 'a';
    assert DateTag(name)[0..4][0] == 'a';
  }

  /** A daily image with a valid date is never taken for an accumulated
      one. */
  lemma DailyNotAccumulated(d: string)
    requires ValidIsoDate(d)
    ensures !MatchesGlob(DailyFileName(d), AccumPrefix, ImageExt)
  {
    DailyFileNameTag(d);
    if MatchesGlob(DailyFileName(d), AccumPrefix, ImageExt) {
      AccumulatedNeverDated(DailyFileName(d));
    }
  }

  /** The names the accumulated glob `divino_prec_acumulada_*.png` matches. */
  function AccumCandidates(files: set<string>): (c: set<string>)
    ensures forall f :: f in c <==> f in files && MatchesGlob(f, AccumPrefix, ImageExt)
  {
    set f | f in files && MatchesGlob(f, AccumPrefix, ImageExt)
  }

  /** The image for a variable and an optional date. The accumulated
      variable takes the last of its matches in sorted order; the daily one
      builds the name from the date. Every "not found" is an empty payload. */
  function ResolveImage(files: set<string>, v: Variable, dateIso: Option<string>): (p: Payload)
    ensures p.Some? ==> p.value in files
    ensures v == PrecAcum ==> (p.Some? <==> AccumCandidates(files) != {})
    ensures v == PrecAcum && p.Some? ==> IsGreatest(p.value, AccumCandidates(files))
    ensures v == Prec ==> (p.Some? <==> dateIso.Some? && DailyFileName(dateIso.value) in files)
    ensures v == Prec && p.Some? ==> p.value == DailyFileName(dateIso.value)
  {
    var prefix := Info(v).prefix;
    if v == PrecAcum then
      var candidates := AccumCandidates(files);
      if candidates == {} then None
      else
        var path := Greatest(candidates);
        if path in files then Some(path) else None
    else if dateIso.None? then None
    else
      var path := prefix + dateIso.value + ImageExt;
      DailyFileNameTag(dateIso.value);
      if path in files then Some(path) else None
  }

  /** Every date of the catalogue resolves to its own daily image, and a
      well-formed date outside the catalogue resolves to nothing. */
  lemma ResolveMatchesCatalogue(files: set<string>, d: string)
    requires ValidIsoDate(d)
    ensures d in AvailableDates(files) ==> ResolveImage(files, Prec, Some(d)) == Some(DailyFileName(d))
    ensures d !in AvailableDates(files) ==> ResolveImage(files, Prec, Some(d)) == None
  {
  }

  /** The accumulated image does not depend on the date asked for. */
  lemma AccumIgnoresDate(files: set<string>, d1: Option<string>, d2: Option<string>)
    ensures ResolveImage(files, PrecAcum, d1) == ResolveImage(files, PrecAcum, d2)
  {
  }

  /** The period start written at the head of an accumulated image's name,
      as in `divino_prec_acumulada_2025-11-10_a_2025-11-12.png`. */
  predicate HasStartDate(name: string)
  {
    MatchesGlob(name, AccumPrefix, ImageExt)
    && |Wildcard(name, AccumPrefix, ImageExt)| >= 10
    && WellShaped(Wildcard(name, AccumPrefix, ImageExt)[..10])
  }

  function StartDate(name: string): (s: string)
    requires HasStartDate(name)
    ensures WellShaped(s)
  {
    Wildcard(name, AccumPrefix, ImageExt)[..10]
  }

  /** Of two accumulated names with start dates, the one Python sorts
      first never starts later. */
  lemma AccumOrderGivesStartOrder(c: string, m: string)
    requires HasStartDate(c) && HasStartDate(m)
    requires LexLess(c, m)
    ensures !ChronoLess(StartDate(m), StartDate(c))
  {
    var wc, wm := Wildcard(c, AccumPrefix, ImageExt), Wildcard(m, AccumPrefix, ImageExt);
    var sc, sm := StartDate(c), StartDate(m);
    var xc, xm := wc[10..] + ImageExt, wm[10..] + ImageExt;
    assert c == AccumPrefix + (sc + xc) by {
      assert wc == sc + wc[10..];
    }
    assert m == AccumPrefix + (sm + xm) by {
      assert wm == sm + wm[10..];
    }
    SharedPrefixOrder(AccumPrefix, sc + xc, sm + xm);
    HeadOrder(sc, xc, sm, xm);
    LexIsChronological(sm, sc);
  }

  /** The lexicographic choice of the accumulated image picks the latest
      period start, provided every accumulated name begins with a zero-padded
      start date. */
  lemma LatestAccumulatedStartsLatest(files: set<string>, c: string)
    requires c in AccumCandidates(files)
    requires forall f :: f in AccumCandidates(files) ==> HasStartDate(f)
    ensures ResolveImage(files, PrecAcum, None).Some?
    ensures !ChronoLess(StartDate(ResolveImage(files, PrecAcum, None).value), StartDate(c))
  {
    var p := ResolveImage(files, PrecAcum, None);
    var m := p.value;
    assert IsGreatest(m, AccumCandidates(files));
    if c != m {
      AccumOrderGivesStartOrder(c, m);
    }
  }
}
