# Divino precipitation panel — model of the image pipeline

The panel reads pre-rendered precipitation maps from its own directory and
shows them. Daily maps are named `divino_prec_YYYY-MM-DD.png`. Accumulated
maps are named `divino_prec_acumulada_*.png`. This project models the part
of `app.py` that turns the directory contents into what the user sees:

- the **date catalogue** (`listar_datas_disponiveis`): the valid date tags
  of the daily maps, de-duplicated and sorted;
- the **startup check** that refuses an empty catalogue, and the default
  date (the last catalogue entry);
- the **date label** (`formatar_label_br`), `YYYY-MM-DD` → `DD/MM/YYYY`;
- **image resolution** (`carregar_imagem_base64`): the latest accumulated
  map, or the daily map of one date, or nothing;
- **figure composition** (`adicionar_pontos_foco`,
  `construir_figura_estatica`, `construir_animacao`) and the **callback**
  (`atualizar_mapa`) that picks an empty figure, a static map or the
  animation from the (date, variable, mode) selection.

The directory is an immutable snapshot: `ImageDir` is `Missing` or a
`Listing` of a finite set of file names. A glob `<prefix>*<ext>` is a
prefix/suffix match on those names. An encoded image is opaque: a `Payload`
is `Some(fileName)`, standing for the encoded contents of that file, or
`None`, standing for the empty string the panel returns when nothing is
found. Plotly figures are the `Scenes.Figure` datatype. It keeps only the
fields whose content the panel decides: the title, the layout-image sources,
the marker traces, and the animation (frames, slider steps and frame
durations).

Python's ordering of `str` values is `Strings.LexLess`: code points compared
left to right, with a proper prefix sorting first. The date parser accepts
the zero-padded form `YYYY-MM-DD` with ASCII digits. The year runs from 1 to
9999, the month from 1 to 12, and the day must exist in that month under the
Gregorian leap-year rule.

Files: `wrappers.dfy` (Option, Result), `strings.dfy` (glob matching, string
order, sorting a set), `dates.dfy` (date tags, chronological order, labels),
`artifacts.dfy` (variables, catalogue, image resolution), `scenes.dfy`
(figures), `panel.dfy` (startup and callback), `example.dfy` (a worked
directory with two daily maps and one accumulated map).

Three behaviours of the code that the model keeps:
- Focus points are added only to a static map that has an image, and to
  the animation. A static map without an image gets a title only
  (app.py:130-139, 158, 270).
- Date tags are de-duplicated as strings, through a Python set
  (app.py:58, 64). In the strict zero-padded form this is the same as
  de-duplicating dates, because one date has exactly one tag
  (`IsoDates.FieldsDetermineDate`).
- In the daily mode the callback raises `ValueError` for a date that does
  not parse, because `formatar_label_br` raises (app.py:443, 72).
  `Panel.Route` returns `Failure(UnparsableDate(..))` in exactly that case.

## Model

| member | source | states |
|---|---|---|
| Strings.LexTotal | app.py:68 | Python's string order is total: two different strings are ordered one way or the other |
| Strings.LexTransitive | app.py:68 | Python's string order is transitive |
| Strings.Greatest | app.py:81-85 | the last element of the sorted candidates is in the set and every other candidate sorts before it |
| Strings.SortSet | app.py:68 | `sorted` of a set lists every element exactly once, in strictly increasing order, and nothing else |
| Strings.AscendingUnique | app.py:68 | a set has exactly one strictly ascending listing, so the sorted catalogue is determined by its contents |
| IsoDates.YearLength | app.py:63 | under the month lengths the parser checks days against, a leap year has 366 days and any other year 365 |
| IsoDates.DigitsOrder | app.py:68 | on digit strings of one length, string order is the order of the numbers written |
| IsoDates.LexIsChronological | app.py:68 | for zero-padded `YYYY-MM-DD` strings, string order coincides with (year, month, day) order |
| IsoDates.FieldsDetermineDate | app.py:58-64 | a zero-padded tag is determined by its year, month and day, so de-duplicating tags de-duplicates dates |
| IsoDates.FormatLabelBr | app.py:71-73 | the label has length 10, slashes at positions 2 and 5, and its three digit fields are the day, month and year of the input |
| IsoDates.LabelRoundTrip | app.py:71-73 | reading the `DD/MM/YYYY` label back yields the original `YYYY-MM-DD` tag |
| IsoDates.FormatLabelBrInjective | app.py:71-73 | distinct valid dates get distinct labels |
| Artifacts.DailyFileNameTag | app.py:59-61 | the daily name built from a tag matches the daily glob, and stripping prefix and extension gives the tag back |
| Artifacts.DateSet | app.py:58-66 | a tag is collected exactly when it is a valid date and `divino_prec_<tag>.png` is in the directory |
| Artifacts.AvailableDates | app.py:58-68 | the catalogue is strictly ascending and holds exactly the valid dates whose daily image is present |
| Artifacts.ListAvailableDates | app.py:54-68 | a missing directory is the `DirectoryNotFound` failure and an existing one always succeeds, with the ascending catalogue |
| Artifacts.CatalogueIsUnique | app.py:68 | any strictly ascending listing of exactly the valid dates present equals the catalogue |
| Artifacts.AccumulatedNeverDated | app.py:59-66 | every accumulated image also matches the daily glob, but its tag never parses, so it is skipped |
| Artifacts.DailyNotAccumulated | app.py:59 | a daily image with a valid date never matches the accumulated glob |
| Artifacts.ResolveImage | app.py:76-93 | accumulated: the greatest matching name, or nothing when none matches; daily: nothing without a date, else `divino_prec_<date>.png` when present and nothing otherwise |
| Artifacts.ResolveMatchesCatalogue | app.py:86-93 | a catalogue date resolves to its own daily image; a valid date outside the catalogue resolves to nothing |
| Artifacts.AccumIgnoresDate | app.py:80-85 | the accumulated image does not depend on the date asked for |
| Artifacts.AccumOrderGivesStartOrder | app.py:81-85 | of two accumulated names that begin with a zero-padded start date, the one sorted first never starts later |
| Artifacts.LatestAccumulatedStartsLatest | app.py:81-85 | when every accumulated name begins with a start date, the chosen image has the latest start date |
| Scenes.AddFocusPoints | app.py:101-124 | an empty table leaves the figure unchanged; otherwise exactly one marker trace is appended and nothing else changes |
| Scenes.BuildStatic | app.py:127-166 | titled, not animated; no image gives no image and no markers; an image gives exactly that image plus the markers |
| Scenes.BuildAnimation | app.py:169-280 | one frame per date in input order, each named by its date with that date's image; the first frame's image is the initial picture; one step per frame captioned `DD/MM/YYYY`; 500 ms everywhere; the only trace is the focus-point markers, present exactly when the table is non-empty |
| Scenes.SliderCaptionsName | app.py:216-230 | every slider caption reads back to the name of the frame it selects |
| Panel.Startup | app.py:285-292 | fails exactly for a missing directory and for a directory without a valid daily image; otherwise keeps the snapshot and an ascending, non-empty catalogue of valid dates |
| Panel.DefaultIsLatest | app.py:292 | the default date is in the catalogue and every other entry is chronologically earlier |
| Panel.Route | app.py:428-448 | no variable gives the empty figure; accumulated gives its static map titled with its caption; daily mode without a date gives the empty figure, and with a date gives the map titled caption + " — " + label, or fails on an unparsable date; any other mode animates the whole catalogue |
| Panel.AccumIgnoresDateAndMode | app.py:434-437 | for the accumulated variable, requests that differ only in date or mode get identical figures |
| Panel.AnimationIgnoresDate | app.py:447-448 | in animation mode the selected date makes no difference |
| Panel.AnimationCoversCatalogue | app.py:447-448 | after startup, the animation's frame names are exactly the catalogue, in order, each frame showing that date's daily image |
| Example.ExampleCatalogue | app.py:58-68 | for two daily maps and one accumulated map, the catalogue is the two dates in order |
| Example.ExampleStartup | app.py:285-292 | on that directory, startup succeeds and the later date is the default |
| Example.ExampleMissingDay | app.py:86-93 | on that directory, the daily map of the day in between has no image |
| Example.ExampleAccumulated | app.py:80-85 | on that directory, the accumulated map shows the accumulated file in every mode |
| Example.ExampleAnimation | app.py:447-448 | on that directory, the animation's frames are the two dates in order |

## Left out

- Dash and Bootstrap layout, the widgets, `app.run`, and the callback
  decorator: these are interface wiring. Only the body of `atualizar_mapa`
  is modelled.
- Plotly styling, including margins, colours, axis ranges, `scaleanchor`,
  the image placement constants and button placement. These have no
  behavioural content.
- The `/static/<path>` route and the fixed `prec_4_pontos_2x2.png` image. These
  serve bytes and take no part in the pipeline.
- Reading files, base64 encoding and the `data:` URI. A payload is the file
  name it would encode.
- The printed warnings. A "not found" is modelled as the `None` payload.
- Leniencies of `strptime` beyond the zero-padded form: a single-digit month
  or day, a space before a single-digit day, and non-ASCII digits. The model
  rejects those tags, while Python would accept them and keep the suffix as
  written. Such tags would break the equivalence between string order and
  chronological order, so the model does not cover them.
- IsoDates.FormatLabelBr: pads the year to four digits. `strftime("%Y")`
  leaves years below 1000 unpadded on some platforms.
- The variable key is the enumeration `Variable` wrapped in `Option`.
  Strings other than `prec` and `prec_acum` would raise `KeyError` in
  `VAR_OPCOES[var_key]`, but the radio widget never sends them.
- The mode is a plain string: `"dia"` selects the daily map and every other
  value animates, as in the code.
- The directory is read once, at startup, and every later lookup uses that
  snapshot (`App.files`). The code lists the directory once for the
  catalogue (app.py:285) but globs it and checks `exists()` again on every
  callback (app.py:81, 89-91). `Panel.AnimationCoversCatalogue` and
  `Artifacts.ResolveMatchesCatalogue` therefore assume the directory does not
  change after startup; in the code, a daily image deleted later gives a
  blank frame, and an accumulated image added later is picked up.
- Subdirectories and non-file entries matched by a glob are not modelled.
  The snapshot is the flat set of file names. A date containing a path
  separator therefore resolves to nothing.
- The focus-point table is empty in the configuration
  (`Scenes.FocusPoints`). The figure builders take the table as a parameter,
  so that the non-empty branch is modelled. Coordinates are carried as `real`
  values and never computed with.
