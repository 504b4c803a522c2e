/** `establishContext` of `src/helpers/establishContext.ts`: the building name, the
    dataset name and the input and output paths of one run. The command-line
    arguments, the asset named in the trigger payload and the clock are parameters;
    the file system work after the paths are fixed is not modelled. */
module EstablishContext {
  import opened Wrappers
  import opened Strings
  import opened NodePath

  // ----- the building name -----

  /** The ASCII letters of a text, in order. */
  function Letters(s: string): (r: string)
    ensures |r| <= |s|
    ensures forall i :: 0 <= i < |r| ==> IsAsciiLetter(r[i])
  {
    if |s| == 0 then ""
    else (if IsAsciiLetter(s[0]) then [s[0]] else "") + Letters(s[1..])
  }

  /** `s.replace(/[^a-zA-Z]+/g, '')`: scanning from the left, each maximal run of
      characters other than ASCII letters is removed and each letter is kept. */
  function RemoveNonLetterRuns(s: string): string
    decreases |s|
  {
    if |s| == 0 then ""
    else
      var n := Run(Complement(IsAsciiLetter), s);
      if n > 0 then RemoveNonLetterRuns(s[n..]) else [s[0]] + RemoveNonLetterRuns(s[1..])
  }

  /** A prefix of non-letters contributes no letter. */
  lemma {:induction false} LettersSkip(s: string, n: nat)
    requires n <= |s|
    requires forall i :: 0 <= i < n ==> !IsAsciiLetter(s[i])
    ensures Letters(s) == Letters(s[n..])
    decreases n
  {
    if n > 0 {
      assert s[1..][n - 1..] == s[n..];
      LettersSkip(s[1..], n - 1);
    }
  }

  /** Removing the runs of non-letters is keeping the letters. */
  lemma {:induction false} RemoveNonLetterRunsIsLetters(s: string)
    ensures RemoveNonLetterRuns(s) == Letters(s)
    decreases |s|
  {
    if |s| > 0 {
      var n := Run(Complement(IsAsciiLetter), s);
      if n > 0 {
        forall i | 0 <= i < n
          ensures !IsAsciiLetter(s[i])
        {
          assert Complement(IsAsciiLetter)(s[i]);
        }
        LettersSkip(s, n);
        RemoveNonLetterRunsIsLetters(s[n..]);
      } else {
        assert !Complement(IsAsciiLetter)(s[0]);
        RemoveNonLetterRunsIsLetters(s[1..]);
      }
    }
  }

  /** The letters of a concatenation are the letters of each part. */
  lemma {:induction false} LettersAppend(a: string, b: string)
    ensures Letters(a + b) == Letters(a) + Letters(b)
    decreases |a|
  {
    if |a| == 0 {
      assert a + b == b;
    } else {
      var h: string := if IsAsciiLetter(a[0]) then [a[0]] else "";
      assert (a + b)[0] == a[0];
      assert (a + b)[1..] == a[1..] + b;
      LettersAppend(a[1..], b);
      assert Letters(a + b) == h + (Letters(a[1..]) + Letters(b));
      assert Letters(a) == h + Letters(a[1..]);
      Associates(h, Letters(a[1..]), Letters(b));
    }
  }

  /** A text of letters only is kept whole; in particular the filter is idempotent. */
  lemma {:induction false} LettersKeepsLetters(s: string)
    requires forall i :: 0 <= i < |s| ==> IsAsciiLetter(s[i])
    ensures Letters(s) == s
    decreases |s|
  {
    if |s| > 0 {
      LettersKeepsLetters(s[1..]);
    }
  }

  /** `args.ifc.replaceAll('.ifc', '').replace(/[^a-zA-Z]+/g, '')`. */
  function BuildingName(ifc: string): (r: string)
    ensures forall i :: 0 <= i < |r| ==> IsAsciiLetter(r[i])
  {
    RemoveNonLetterRunsIsLetters(ReplaceAll(ifc, ".ifc", ""));
    RemoveNonLetterRuns(ReplaceAll(ifc, ".ifc", ""))
  }

  /** For a file name `<stem>.ifc` whose stem has no dot, the building name is the
      letters of the stem: the extension's letters do not survive. */
  lemma BuildingNameOfFile(stem: string)
    requires forall i :: 0 <= i < |stem| ==> stem[i] != '.'
    ensures BuildingName(stem + ".ifc") == Letters(stem)
  {
    ExtensionRemoved(stem);
    RemoveNonLetterRunsIsLetters(stem);
  }

  lemma ExtensionRemoved(stem: string)
    requires forall i :: 0 <= i < |stem| ==> stem[i] != '.'
    ensures ReplaceAll(stem + ".ifc", ".ifc", "") == stem
  {
    var s := stem + ".ifc";
    forall k | 0 <= k < |stem|
      ensures !OccursAt(s, ".ifc", k)
    {
      OccursAtHead(s, ".ifc", k);
      assert s[k] == stem[k];
    }
    ReplaceAllSkipsClearPrefix(stem, ".ifc", ".ifc", "");
    ExtensionAlone();
  }

  lemma ExtensionAlone()
    ensures ReplaceAll(".ifc", ".ifc", "") == ""
  {
    ReplaceAllLeading(".ifc", "", "");
    assert ".ifc" + "" == ".ifc";
  }

  /** A text without letters has no letters to keep. */
  lemma NoLetters(s: string)
    requires forall i :: 0 <= i < |s| ==> !IsAsciiLetter(s[i])
    ensures Letters(s) == ""
  {
    LettersSkip(s, |s|);
    assert s[|s|..] == "";
  }

  lemma BuildingNameExample()
    ensures BuildingName("Gebouw_01.ifc") == "Gebouw"
  {
    var stem := "Gebouw" + "_01";
    assert stem == "Gebouw_01";
    assert stem + ".ifc" == "Gebouw_01.ifc";
    BuildingNameOfFile(stem);
    NoLetters("_01");
    LettersAppend("Gebouw", "_01");
    LettersKeepsLetters("Gebouw");
  }

  // ----- the clock and the dataset name -----

  /** What `new Date()` reports in local time: `getFullYear`, `getMonth` (from 0),
      `getDate`, `getHours`, `getMinutes`, `getSeconds`. */
  datatype Clock = Clock(year: nat, month0: nat, date: nat, hours: nat, minutes: nat, seconds: nat)

  predicate IsLeapYear(year: nat) {
    (year % 4 == 0 && year % 100 != 0) || year % 400 == 0
  }

  /** The number of days of a month of the Gregorian calendar, `month0` from 0. */
  function DaysInMonth(year: nat, month0: nat): (r: nat)
    requires month0 < 12
    ensures 28 <= r <= 31
  {
    if month0 == 1 then (if IsLeapYear(year) then 29 else 28)
    else if month0 == 3 || month0 == 5 || month0 == 8 || month0 == 10 then 30
    else 31
  }

  /** The values a clock can report. */
  predicate ValidClock(c: Clock) {
    && c.month0 < 12 && 1 <= c.date <= DaysInMonth(c.year, c.month0)
    && c.hours < 24 && c.minutes < 60 && c.seconds < 60
  }

  /** `${year}-${month}-${day}--${hours}-${minutes}-${seconds}` with the day field given. */
  function Stamp(c: Clock, day: nat): string {
    NatToString(c.year) + "-" + Pad2(c.month0 + 1) + "-" + Pad2(day)
      + "--" + Pad2(c.hours) + "-" + Pad2(c.minutes) + "-" + Pad2(c.seconds)
  }

  /** `buildingName.substring(0, 18)`. */
  function NamePrefix(building: string): (r: string)
    ensures |r| <= 18 && StartsWith(building, r)
    ensures |building| <= 18 ==> r == building
  {
    if |building| <= 18 then building else building[..18]
  }

  /** The dataset name as the code builds it: the day field is `getDate() + 1`. */
  function DatasetNameAsWritten(building: string, c: Clock): string {
    NamePrefix(building) + "--" + Stamp(c, c.date + 1)
  }

  /** The dataset name with the day of the month the clock reports. */
  function DatasetName(building: string, c: Clock): string {
    NamePrefix(building) + "--" + Stamp(c, c.date)
  }

  /** The six numbers a stamp shows, the month counted from 1. */
  datatype Reading = Reading(year: nat, month: nat, day: nat, hours: nat, minutes: nat, seconds: nat)

  /** What a stamp of clock `c` should show. */
  function Shown(c: Clock): Reading {
    Reading(c.year, c.month0 + 1, c.date, c.hours, c.minutes, c.seconds)
  }

  /** A reading names a moment the clock can report. */
  predicate ValidReading(r: Reading) {
    1 <= r.month <= 12 && ValidClock(Clock(r.year, r.month - 1, r.day, r.hours, r.minutes, r.seconds))
  }

  /** The numbers of six digit fields. */
  function ReadFields(y: string, mo: string, d: string, h: string, mi: string, s: string): Option<Reading> {
    if AllDigits(y) && AllDigits(mo) && AllDigits(d) && AllDigits(h) && AllDigits(mi) && AllDigits(s)
    then Some(Reading(DigitsValue(y), DigitsValue(mo), DigitsValue(d), DigitsValue(h), DigitsValue(mi), DigitsValue(s)))
    else None
  }

  /** Reads a stamp `YYYY-MM-DD--HH-MM-SS` back into its six numbers. */
  function ReadStamp(t: string): (r: Option<Reading>)
    ensures r.Some? ==> |t| == 20
  {
    if && |t| == 20 && t[4] == '-' && t[7] == '-' && t[10] == '-' && t[11] == '-'
       && t[14] == '-' && t[17] == '-'
    then ReadFields(t[..4], t[5..7], t[8..10], t[12..14], t[15..17], t[18..])
    else None
  }

  /** The positions of the six fields in a stamp with a four-digit year. */
  lemma StampLayout(y: string, mo: string, d: string, h: string, mi: string, s: string)
    requires |y| == 4 && |mo| == 2 && |d| == 2 && |h| == 2 && |mi| == 2 && |s| == 2
    ensures var t := y + "-" + mo + "-" + d + "--" + h + "-" + mi + "-" + s;
      && |t| == 20 && t[4] == '-' && t[7] == '-' && t[10] == '-' && t[11] == '-'
      && t[14] == '-' && t[17] == '-'
      && t[..4] == y && t[5..7] == mo && t[8..10] == d
      && t[12..14] == h && t[15..17] == mi && t[18..] == s
  {
  }

  /** Six digit fields laid out as a stamp read back as their values. */
  lemma ReadStampOf(y: string, mo: string, d: string, h: string, mi: string, s: string)
    requires |y| == 4 && |mo| == 2 && |d| == 2 && |h| == 2 && |mi| == 2 && |s| == 2
    requires AllDigits(y) && AllDigits(mo) && AllDigits(d) && AllDigits(h) && AllDigits(mi) && AllDigits(s)
    ensures ReadStamp(y + "-" + mo + "-" + d + "--" + h + "-" + mi + "-" + s)
      == Some(Reading(DigitsValue(y), DigitsValue(mo), DigitsValue(d),
                      DigitsValue(h), DigitsValue(mi), DigitsValue(s)))
  {
    var t := y + "-" + mo + "-" + d + "--" + h + "-" + mi + "-" + s;
    StampLayout(y, mo, d, h, mi, s);
    ReadStampAt(t, y, mo, d, h, mi, s);
    ReadFieldsOfDigits(y, mo, d, h, mi, s);
  }

  lemma ReadFieldsOfDigits(y: string, mo: string, d: string, h: string, mi: string, s: string)
    requires AllDigits(y) && AllDigits(mo) && AllDigits(d) && AllDigits(h) && AllDigits(mi) && AllDigits(s)
    ensures ReadFields(y, mo, d, h, mi, s)
      == Some(Reading(DigitsValue(y), DigitsValue(mo), DigitsValue(d),
                      DigitsValue(h), DigitsValue(mi), DigitsValue(s)))
  {
  }

  lemma ReadStampAt(t: string, y: string, mo: string, d: string, h: string, mi: string, s: string)
    requires |t| == 20 && t[4] == '-' && t[7] == '-' && t[10] == '-' && t[11] == '-'
    requires t[14] == '-' && t[17] == '-'
    requires t[..4] == y && t[5..7] == mo && t[8..10] == d
    requires t[12..14] == h && t[15..17] == mi && t[18..] == s
    ensures ReadStamp(t) == ReadFields(y, mo, d, h, mi, s)
  {
  }

  /** With a four-digit year, a stamp reads back as the clock, with the day field given. */
  lemma StampReadsBack(c: Clock, day: nat)
    requires ValidClock(c) && 1000 <= c.year <= 9999 && day < 100
    ensures ReadStamp(Stamp(c, day)) == Some(Shown(c).(day := day))
  {
    NatToStringLength(c.year);
    NatToStringRoundTrip(c.year);
    var y := NatToString(c.year);
    var mo := Pad2(c.month0 + 1);
    var d := Pad2(day);
    var h := Pad2(c.hours);
    var mi := Pad2(c.minutes);
    var s := Pad2(c.seconds);
    ReadStampOf(y, mo, d, h, mi, s);
    var t := y + "-" + mo + "-" + d + "--" + h + "-" + mi + "-" + s;
    assert Stamp(c, day) == t;
    var read := Reading(DigitsValue(y), DigitsValue(mo), DigitsValue(d), DigitsValue(h), DigitsValue(mi), DigitsValue(s));
    assert ReadStamp(t) == Some(read);
    assert read == Reading(c.year, c.month0 + 1, day, c.hours, c.minutes, c.seconds);
    assert Shown(c).(day := day) == Reading(c.year, c.month0 + 1, day, c.hours, c.minutes, c.seconds);
  }

  /** The dataset name is the first 18 letters of the building name, "--", and the
      stamp, which reads back as the clock; for a four-digit year it has at most 40
      characters, the limit the code's comment states. */
  lemma DatasetNameShape(building: string, c: Clock)
    requires ValidClock(c) && 1000 <= c.year <= 9999
    ensures var n := DatasetName(building, c);
      && |n| == |NamePrefix(building)| + 22 && |n| <= 40
      && n[..|NamePrefix(building)|] == NamePrefix(building)
      && n[|NamePrefix(building)|..|NamePrefix(building)| + 2] == "--"
      && ReadStamp(n[|NamePrefix(building)| + 2..]) == Some(Shown(c))
      && ValidReading(Shown(c))
  {
    StampReadsBack(c, c.date);
    NameSplits(NamePrefix(building), Stamp(c, c.date));
    assert Shown(c).(day := c.date) == Shown(c);
  }

  lemma NameSplits(p: string, t: string)
    ensures var n := p + "--" + t;
      n[..|p|] == p && n[|p|..|p| + 2] == "--" && n[|p| + 2..] == t
  {
  }

  /** As written, the stamp reads back one day late: on the last day of a month the
      day field names a day the month does not have. */
  lemma DatasetNameAsWrittenDayLate(building: string, c: Clock)
    requires ValidClock(c) && 1000 <= c.year <= 9999
    ensures var n := DatasetNameAsWritten(building, c);
      var read := ReadStamp(n[|NamePrefix(building)| + 2..]);
      && read == Some(Shown(c).(day := c.date + 1))
      && (c.date == DaysInMonth(c.year, c.month0) ==> !ValidReading(read.value))
  {
    var t := Stamp(c, c.date + 1);
    StampReadsBack(c, c.date + 1);
    NameSplits(NamePrefix(building), t);
    assert DatasetNameAsWritten(building, c) == NamePrefix(building) + "--" + t;
    DayPastMonthEnd(c);
  }

  /** The day after the last day of the month is not a day of that month. */
  lemma DayPastMonthEnd(c: Clock)
    requires ValidClock(c)
    ensures c.date == DaysInMonth(c.year, c.month0) ==> !ValidReading(Shown(c).(day := c.date + 1))
  {
    var r := Shown(c).(day := c.date + 1);
    assert r.month - 1 == c.month0;
  }

  // ----- the context -----

  /** The arguments `args-parser` yields for `--ifc` and `--ids`; `None` for a
      missing argument or a flag without a value. */
  datatype Args = Args(ifc: Option<string>, ids: Option<string>)

  /** The paths of one run. */
  datatype Context = Context(outputsDir: string, inputsDir: string, ifcFile: string, idsFile: string)

  /** The dataset name and the context of one run. */
  datatype Established = Established(datasetName: string, context: Context)

  /** `ifcFileName`: the asset of the trigger payload when it names an `.ifc` file,
      otherwise `args.ifc`. */
  function IfcFileName(ifc: Option<string>, triggerAsset: Option<string>): (r: Option<string>)
    ensures r == ifc || r == triggerAsset
    ensures r != ifc ==> r.Some? && EndsWith(r.value, ".ifc")
  {
    if triggerAsset.Some? && EndsWith(triggerAsset.value, ".ifc") then triggerAsset else ifc
  }

  /** `establishContext()` with the dataset name that `nameOf` gives the building name.
      Reading `replaceAll` of a missing `args.ifc` and passing a missing `args.ids` to
      `path.join` both throw a TypeError. */
  function EstablishNamed(args: Args, triggerAsset: Option<string>, nameOf: string -> string): (r: Result<Established>)
    ensures r.Err? <==> args.ifc.None? || args.ids.None?
    ensures r.Err? ==> r.error == TypeError
    ensures r.Ok? ==> r.value.datasetName == nameOf(BuildingName(args.ifc.value))
  {
    if args.ifc.None? then Err(TypeError)
    else
      var name := nameOf(BuildingName(args.ifc.value));
      var ifcFileName := IfcFileName(args.ifc, triggerAsset).value;
      if args.ids.None? then Err(TypeError)
      else
        Ok(Established(name, Paths(name, ifcFileName, args.ids.value)))
  }

  /** `establishContext()` as written: the dataset name's day is `getDate() + 1`. */
  function EstablishAsWritten(args: Args, triggerAsset: Option<string>, c: Clock): (r: Result<Established>)
    ensures r.Err? <==> args.ifc.None? || args.ids.None?
    ensures r.Err? ==> r.error == TypeError
    ensures r.Ok? ==> r.value.datasetName == DatasetNameAsWritten(BuildingName(args.ifc.value), c)
  {
    EstablishNamed(args, triggerAsset, b => DatasetNameAsWritten(b, c))
  }

  /** `establishContext()` with the day of the month the clock reports. */
  function Establish(args: Args, triggerAsset: Option<string>, c: Clock): (r: Result<Established>)
    ensures r.Err? <==> args.ifc.None? || args.ids.None?
    ensures r.Err? ==> r.error == TypeError
    ensures r.Ok? ==> r.value.datasetName == DatasetName(BuildingName(args.ifc.value), c)
  {
    EstablishNamed(args, triggerAsset, b => DatasetName(b, c))
  }

  /** The program and the corrected reading fail together and differ only in the
      dataset name, and so in the paths under it. */
  lemma EstablishDiffersOnlyInName(args: Args, triggerAsset: Option<string>, c: Clock)
    ensures EstablishAsWritten(args, triggerAsset, c).Ok? <==> Establish(args, triggerAsset, c).Ok?
    ensures EstablishAsWritten(args, triggerAsset, c).Ok? ==>
      var ifcFileName := IfcFileName(args.ifc, triggerAsset).value;
      var e1 := EstablishAsWritten(args, triggerAsset, c).value;
      var e2 := Establish(args, triggerAsset, c).value;
      && e1.context == Paths(e1.datasetName, ifcFileName, args.ids.value)
      && e2.context == Paths(e2.datasetName, ifcFileName, args.ids.value)
  {
  }

  /** The dataset name is never empty: it holds the "--" separators. */
  lemma DatasetNameNotEmpty(building: string, c: Clock)
    ensures |DatasetName(building, c)| >= 2
    ensures |DatasetNameAsWritten(building, c)| >= 2
  {
  }

  /** Under a non-empty directory, `path.join` of a non-empty name is directory,
      "/" and name; an empty name adds nothing. */
  lemma JoinUnder(dir: string, name: string)
    requires dir != ""
    ensures PathJoin([dir, name]) == if name == "" then dir else dir + "/" + name
  {
    if name == "" {
      assert NonEmpty([dir, name]) == [dir];
    } else {
      PathJoinKeepsAll([dir, name]);
      JoinCons(dir, [name], "/");
    }
  }

  /** `outputs/<dataset>` and `inputs/<dataset>`, and both files inside the inputs
      directory. */
  lemma ContextLayout(args: Args, triggerAsset: Option<string>, c: Clock)
    requires EstablishAsWritten(args, triggerAsset, c).Ok?
    ensures var e := EstablishAsWritten(args, triggerAsset, c).value;
      var ifcFileName := IfcFileName(args.ifc, triggerAsset).value;
      && e.context.outputsDir == "outputs/" + e.datasetName
      && e.context.inputsDir == "inputs/" + e.datasetName
      && e.context.ifcFile == (if ifcFileName == "" then e.context.inputsDir
                               else e.context.inputsDir + "/" + ifcFileName)
      && e.context.idsFile == (if args.ids.value == "" then e.context.inputsDir
                               else e.context.inputsDir + "/" + args.ids.value)
  {
    var e := EstablishAsWritten(args, triggerAsset, c).value;
    var name := e.datasetName;
    var ifcFileName := IfcFileName(args.ifc, triggerAsset).value;
    DatasetNameNotEmpty(BuildingName(args.ifc.value), c);
    assert e.context == Paths(name, ifcFileName, args.ids.value);
    PathsLayout(name, ifcFileName, args.ids.value);
  }

  /** The four paths of a run, as `establishContext` joins them. */
  function Paths(name: string, ifcFileName: string, idsFileName: string): Context {
    Context(
      PathJoin(["outputs", name]),
      PathJoin(["inputs", name]),
      PathJoin(["inputs", name, ifcFileName]),
      PathJoin(["inputs", name, idsFileName]))
  }

  lemma PathsLayout(name: string, ifcFileName: string, idsFileName: string)
    requires name != ""
    ensures var p := Paths(name, ifcFileName, idsFileName);
      && p.outputsDir == "outputs/" + name
      && p.inputsDir == "inputs/" + name
      && p.ifcFile == (if ifcFileName == "" then p.inputsDir else p.inputsDir + "/" + ifcFileName)
      && p.idsFile == (if idsFileName == "" then p.inputsDir else p.inputsDir + "/" + idsFileName)
  {
    DirectoryUnder("outputs", "outputs/", name);
    DirectoryUnder("inputs", "inputs/", name);
    ThreeSegments("inputs", name, ifcFileName);
    ThreeSegments("inputs", name, idsFileName);
  }

  lemma DirectoryUnder(dir: string, dirSlash: string, name: string)
    requires dir != "" && name != "" && dirSlash == dir + "/"
    ensures PathJoin([dir, name]) == dirSlash + name
  {
    JoinUnder(dir, name);
  }

  lemma ThreeSegments(a: string, b: string, name: string)
    requires a != "" && b != ""
    ensures PathJoin([a, b, name]) == if name == "" then PathJoin([a, b]) else PathJoin([a, b]) + "/" + name
  {
    if name == "" {
      EmptyThirdSegment(a, b);
    } else {
      FullThirdSegment(a, b, name);
    }
  }

  lemma FullThirdSegment(a: string, b: string, name: string)
    requires a != "" && b != "" && name != ""
    ensures PathJoin([a, b, name]) == PathJoin([a, b]) + "/" + name
  {
    PathJoinKeepsAll([a, b]);
    PathJoinKeepsAll([a, b, name]);
    assert [a, b] + [name] == [a, b, name];
    JoinAppend([a, b], [name], "/");
  }

  lemma EmptyThirdSegment(a: string, b: string)
    requires a != "" && b != ""
    ensures PathJoin([a, b, ""]) == PathJoin([a, b])
  {
    NonEmptyAppend([a, b], [""]);
    assert [a, b] + [""] == [a, b, ""];
    assert NonEmpty([""]) == [];
    assert NonEmpty([a, b]) + [] == NonEmpty([a, b]);
  }

  /** The building name, and so the dataset name and both directories, come from
      `args.ifc` whatever the trigger payload names; only the IFC file's path follows
      the payload. */
  lemma TriggerMovesOnlyIfcFile(args: Args, t1: Option<string>, t2: Option<string>, c: Clock)
    requires EstablishAsWritten(args, t1, c).Ok?
    ensures var e1 := EstablishAsWritten(args, t1, c).value;
      var e2 := EstablishAsWritten(args, t2, c).value;
      && e1.datasetName == e2.datasetName
      && e1.context.outputsDir == e2.context.outputsDir
      && e1.context.inputsDir == e2.context.inputsDir
      && e1.context.idsFile == e2.context.idsFile
  {
  }
}
