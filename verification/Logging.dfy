/** The rolling per-day log: file names, the retention rule and the writer. */
module Logging {
  import opened Wrappers
  import opened CivilDate
  import opened Text

  // ---------- file names ----------

  /** The date of a day number as `yyyyMMdd`. */
  function DateText(day: nat): string {
    var t := CivilFromDays(day);
    YearNotNegative(day);
    Decimal(t.year, 4) + Decimal(t.month, 2) + Decimal(t.day, 2)
  }

  lemma YearNotNegative(day: nat)
    ensures CivilFromDays(day).year >= 1970
  {
    Epoch();
    if day > 0 { DateOrder(0, day); }
  }

  function FileFor(stem: string, dateText: string): string {
    stem + "." + dateText + ".log"
  }

  predicate StartsWith(s: string, p: string) { |p| <= |s| && s[..|p|] == p }

  predicate EndsWith(s: string, p: string) { |p| <= |s| && s[|s| - |p|..] == p }

  /** What cleanup does with one directory entry. */
  datatype Verdict = Keep | Remove | Panic

  /** `checked` tells whether the build checks arithmetic for overflow. */
  function Judge(stem: string, name: string, cutoff: int, checked: bool): Verdict {
    var prefix := stem + ".";
    if !StartsWith(name, prefix) || !EndsWith(name, ".log") then Keep
    else if |name| - 4 < |prefix| then Panic  // the slice below ends before it starts
    else
      var datePart := name[|prefix|..|name| - 4];
      if |datePart| != 8 || !AllDigits(datePart) then Keep
      else
        var t := ParseDate(datePart);
        if checked && (153 * MonthFromMarch(t) + 2) / 5 + t.day < 1 then Panic  // unsigned subtraction of 1
        else if DaysFromCivil(t) < cutoff then Remove
        else Keep
  }

  function ParseDate(datePart: string): Date
    requires AllDigits(datePart)
  {
    var n := ParseDecimal(datePart);
    Date(n / 10_000, n / 100 % 100, n % 100)
  }

  function MonthFromMarch(t: Date): int { if t.month > 2 then t.month - 3 else t.month + 9 }

  lemma ThreeNumbers(y: nat, m: nat, d: nat)
    requires y <= 9999 && m < 100 && d < 100
    ensures var s := Decimal(y, 4) + Decimal(m, 2) + Decimal(d, 2);
            |s| == 8 && AllDigits(s) && ParseDecimal(s) == 100 * (100 * y + m) + d
  {
    DecimalLength(y, 4);
    DecimalLength(m, 2);
    DecimalLength(d, 2);
    assert Pow10(4) == 10_000 && Pow10(2) == 100;
    ParseOfDecimal(y, 4);
    ParseOfDecimal(m, 2);
    ParseOfDecimal(d, 2);
    ParseAppendTwo(Decimal(y, 4), Decimal(m, 2));
    ParseAppendTwo(Decimal(y, 4) + Decimal(m, 2), Decimal(d, 2));
  }

  lemma DateTextParses(day: nat)
    requires CivilFromDays(day).year <= 9999
    ensures var s := DateText(day);
            |s| == 8 && AllDigits(s) && ParseDate(s) == CivilFromDays(day)
  {
    var t := CivilFromDays(day);
    YearNotNegative(day);
    DayRoundTrip(day);
    ThreeNumbers(t.year, t.month, t.day);
    SplitNumber(t.year, t.month, t.day);
  }

  lemma SplitNumber(y: nat, m: nat, d: nat)
    requires m < 100 && d < 100
    ensures var n := 100 * (100 * y + m) + d;
            n / 10_000 == y && n / 100 % 100 == m && n % 100 == d
  {
    var n := 100 * (100 * y + m) + d;
    assert n / 100 == 100 * y + m;
  }

  lemma LongDateText(day: nat)
    requires CivilFromDays(day).year > 9999
    ensures |DateText(day)| > 8
  {
    var t := CivilFromDays(day);
    DecimalLength(t.year, 4);
    assert Pow10(4) == 10_000;
    DecimalLength(t.month, 2);
    DecimalLength(t.day, 2);
  }

  lemma JudgeOfDatePart(stem: string, text: string, cutoff: int)
    ensures var name := FileFor(stem, text);
            && StartsWith(name, stem + ".") && EndsWith(name, ".log")
            && |name| - 4 == |stem| + 1 + |text| && name[|stem| + 1..|name| - 4] == text
  {
    var name := FileFor(stem, text);
    assert name == (stem + ".") + text + ".log";
  }

  /**
    A file written on `day` is removed on `today` iff it is more than `keepDays` old (and its year has
    four digits).
   */
  lemma RetentionRule(stem: string, day: nat, today: nat, keepDays: nat, checked: bool)
    ensures Judge(stem, FileFor(stem, DateText(day)), today - keepDays, checked) ==
            if CivilFromDays(day).year <= 9999 && today - day > keepDays then Remove else Keep
  {
    JudgeOfDatePart(stem, DateText(day), today - keepDays);
    if CivilFromDays(day).year <= 9999 {
      DateTextParses(day);
      DayRoundTrip(day);
    } else {
      LongDateText(day);
    }
  }

  /** A date part that says day 00 of month 03. */
  predicate MarchZero(stem: string, name: string) {
    var k := |stem| + 5;
    && |name| == k + 8 && StartsWith(name, stem + ".") && AllDigits(name[|stem| + 1..k]) && name[k..] == "0300.log"
  }

  /** The names that make cleanup panic. */
  predicate Fatal(stem: string, name: string, checked: bool) {
    name == stem + ".log" || (checked && MarchZero(stem, name))
  }

  /**
    Cleanup panics on exactly these names: the stem with a bare `.log` behind it
    and, in a build with overflow checks, day 00 of month 03 of any year.
   */
  lemma PanicsExactlyOn(stem: string, name: string, cutoff: int, checked: bool)
    ensures Judge(stem, name, cutoff, checked) == Panic <==> Fatal(stem, name, checked)
  {
    var prefix := stem + ".";
    if Fatal(stem, name, checked) { FatalAffixes(stem, name, checked); }
    if StartsWith(name, prefix) && EndsWith(name, ".log") {
      if |name| - 4 < |prefix| { ShortName(stem, name); } else { LongName(stem, name, cutoff, checked); }
    }
  }

  lemma FatalAffixes(stem: string, name: string, checked: bool)
    requires Fatal(stem, name, checked)
    ensures StartsWith(name, stem + ".") && EndsWith(name, ".log")
  {
    if name == stem + ".log" {
      assert name[..|stem| + 1] == stem + ".";
    } else {
      var k := |name| - 4;
      assert name[k..] == name[|stem| + 5..][4..];
    }
  }

  lemma ShortName(stem: string, name: string)
    requires StartsWith(name, stem + ".") && EndsWith(name, ".log") && |name| - 4 < |stem| + 1
    ensures name == stem + ".log"
  {
    var prefix, k := stem + ".", |name| - 4;
    assert name[|stem|] == prefix[|stem|] == '.';
    assert name[k..][|stem| - k] == name[|stem|];
    assert |stem| - k < 4 && ".log"[|stem| - k] == '.';
    assert k == |stem|;
    assert name[..|stem|] == prefix[..|stem|] == stem;
    assert name == name[..k] + name[k..];
  }

  lemma LongName(stem: string, name: string, cutoff: int, checked: bool)
    requires StartsWith(name, stem + ".") && EndsWith(name, ".log") && |name| - 4 >= |stem| + 1
    ensures Judge(stem, name, cutoff, checked) == Panic <==> Fatal(stem, name, checked)
  {
    var from, to := |stem| + 1, |name| - 4;
    var datePart := name[from..to];
    assert name != stem + ".log";
    if |datePart| == 8 {
      DatePartOf(stem, name);
      if AllDigits(datePart) { NoDayBeforeMarch(datePart); }
    }
  }

  lemma DatePartOf(stem: string, name: string)
    requires StartsWith(name, stem + ".") && EndsWith(name, ".log") && |name| == |stem| + 13
    ensures var datePart := name[|stem| + 1..|name| - 4];
            MarchZero(stem, name) <==> AllDigits(datePart) && datePart[4..] == "0300"
  {
    var from, k, to := |stem| + 1, |stem| + 5, |stem| + 9;
    var datePart := name[from..to];
    assert datePart == name[from..k] + datePart[4..];
    assert name[k..] == datePart[4..] + name[to..];
    if name[k..] == "0300.log" {
      assert datePart[4..] == name[k..][..4] == "0300";
      assert AllDigits("0300");
    }
    if datePart[4..] == "0300" { assert name[k..] == "0300.log"; }
  }

  lemma TwoDigits(two: string)
    requires |two| == 2 && AllDigits(two)
    ensures ParseDecimal(two) == 10 * DigitValue(two[0]) + DigitValue(two[1]) < 100
  {
    assert two[..1] == [two[0]] && two[0] in two && two[1] in two;
    assert ParseDecimal([two[0]]) == DigitValue(two[0]);
  }

  /** The unsigned subtraction fails for day 0 of the first month counted from March only. */
  lemma NoDayBeforeMarch(datePart: string)
    requires |datePart| == 8 && AllDigits(datePart)
    ensures var t := ParseDate(datePart);
            (153 * MonthFromMarch(t) + 2) / 5 + t.day < 1 <==> datePart[4..] == "0300"
  {
    var y, m, d := datePart[..4], datePart[4..6], datePart[6..];
    assert datePart == y + m + d && datePart[4..] == m + d;
    ParseAppendTwo(y, m);
    ParseAppendTwo(y + m, d);
    TwoDigits(m);
    TwoDigits(d);
    SplitNumber(ParseDecimal(y), ParseDecimal(m), ParseDecimal(d));
    DigitsOfMarchZero(m, d);
  }

  lemma DigitsOfMarchZero(m: string, d: string)
    requires |m| == 2 && |d| == 2 && AllDigits(m) && AllDigits(d)
    ensures m + d == "0300" <==>
              10 * DigitValue(m[0]) + DigitValue(m[1]) == 3 && 10 * DigitValue(d[0]) + DigitValue(d[1]) == 0
  {
    var s := m + d;
    assert s[0] == m[0] && s[1] == m[1] && s[2] == d[0] && s[3] == d[1];
    assert m[0] in m && m[1] in m && d[0] in d && d[1] in d;
  }

  /** Year, month and day are the first four, the next two and the last two digits. */
  lemma ParseDateIs(datePart: string)
    requires |datePart| == 8 && AllDigits(datePart)
    ensures ParseDate(datePart) ==
            Date(ParseDecimal(datePart[..4]), ParseDecimal(datePart[4..6]), ParseDecimal(datePart[6..]))
  {
    var y, m, d := datePart[..4], datePart[4..6], datePart[6..];
    assert datePart == y + m + d;
    ParseAppendTwo(y, m);
    ParseAppendTwo(y + m, d);
    TwoDigits(m);
    TwoDigits(d);
    SplitNumber(ParseDecimal(y), ParseDecimal(m), ParseDecimal(d));
  }

  /**
    A name that no date makes removable is kept: removed is only stem, dot, eight digits of
    an earlier date, `.log`.
   */
  lemma RemovedIff(stem: string, name: string, cutoff: int, checked: bool)
    ensures Judge(stem, name, cutoff, checked) == Remove <==>
            && !Fatal(stem, name, checked)
            && exists d: string :: name == FileFor(stem, d) && |d| == 8 && AllDigits(d)
                             && DaysFromCivil(ParseDate(d)) < cutoff
  {
    PanicsExactlyOn(stem, name, cutoff, checked);
    if Judge(stem, name, cutoff, checked) == Remove { RemovedName(stem, name); }
    if d: string :| name == FileFor(stem, d) && |d| == 8 && AllDigits(d) && DaysFromCivil(ParseDate(d)) < cutoff {
      JudgeOfDatePart(stem, d, cutoff);
    }
  }

  lemma RemovedName(stem: string, name: string)
    requires StartsWith(name, stem + ".") && EndsWith(name, ".log") && |name| - 4 >= |stem| + 1
    ensures name == FileFor(stem, name[|stem| + 1..|name| - 4])
  {
    var from, to := |stem| + 1, |name| - 4;
    assert name == name[..from] + name[from..to] + name[to..];
  }

  // ---------- the writer ----------

  type Directory = map<string, seq<string>>   // file name -> lines

  /** The directory after a cleanup. */
  function Retained(stem: string, cutoff: int, files: Directory): Directory {
    map name | name in files && Judge(stem, name, cutoff, false) != Remove :: files[name]
  }

  function Append(files: Directory, name: string, line: string): Directory {
    if name in files then files[name := files[name] + [line]] else files
  }

  /** The line is at the end of the file that was there; no other file has changed. */
  ghost predicate Written(before: Directory, after: Directory, current: string, line: string) {
    && after.Keys == before.Keys
    && (current in after ==> after[current] == before[current] + [line])
    && forall name :: name in after && name != current ==> after[name] == before[name]
  }

  lemma AppendIsWritten(files: Directory, current: string, line: string)
    ensures Written(files, Append(files, current, line), current, line)
  {
  }

  /** The current file is there, with what it had; every other one is there, as it was, unless it is judged too old. */
  ghost predicate Rolled(before: Directory, after: Directory, stem: string, cutoff: int, current: string,
                         checked: bool)
  {
    && current in after && after[current] == (if current in before then before[current] else [])
    && forall name :: name != current ==>
         && (name in after <==> name in before && Judge(stem, name, cutoff, checked) != Remove)
         && (name in after ==> after[name] == before[name])
  }

  lemma SameFatal(before: Directory, during: Directory, stem: string, current: string, checked: bool)
    requires during == (if current in before then before else before[current := []]) && !Fatal(stem, current, checked)
    ensures SomeFatal(stem, during, checked) <==> SomeFatal(stem, before, checked)
  {
  }

  lemma CleanedIsRolled(before: Directory, during: Directory, after: Directory, stem: string, cutoff: int,
                        current: string, checked: bool)
    requires during == if current in before then before else before[current := []]
    requires Judge(stem, current, cutoff, checked) == Keep
    requires forall name ::
               && (name in after <==> name in during && Judge(stem, name, cutoff, checked) != Remove)
               && (name in after ==> after[name] == during[name])
    ensures Rolled(before, after, stem, cutoff, current, checked)
  {
  }

  ghost predicate SomeFatal(stem: string, files: Directory, checked: bool) {
    exists name :: name in files && Fatal(stem, name, checked)
  }

  lemma OnlyPanicDiffers(stem: string, name: string, cutoff: int, checked: bool)
    ensures !Fatal(stem, name, checked) ==> Judge(stem, name, cutoff, checked) == Judge(stem, name, cutoff, false)
  {
    PanicsExactlyOn(stem, name, cutoff, checked);
  }

  class RollingFileLogger {
    const stem: string
    const keepDays: u32
    const checked: bool
    var openDate: Option<string>
    var files: Directory

    constructor (stem: string, keepDays: u32, checked: bool, files: Directory)
      ensures this.stem == stem && this.keepDays == keepDays && this.checked == checked
      ensures this.files == files && openDate == None
    {
      this.stem, this.keepDays, this.checked, this.files, openDate := stem, keepDays, checked, files, None;
    }

    method CleanupOld(today: nat) returns (panicked: bool)
      modifies this`files
      ensures panicked <==> SomeFatal(stem, old(files), checked)
      ensures !panicked ==> files == Retained(stem, today - keepDays, old(files))
      ensures !panicked ==> forall name ::
                && (name in files <==> name in old(files) && Judge(stem, name, today - keepDays, checked) != Remove)
                && (name in files ==> files[name] == old(files)[name])
    {
      var todo := files.Keys;
      ghost var before := files;
      while todo != {}
        invariant todo <= before.Keys
        invariant forall name :: name in before && name !in todo ==> !Fatal(stem, name, checked)
        invariant forall name :: name in before && name !in todo ==>
                    Judge(stem, name, today - keepDays, checked) == Judge(stem, name, today - keepDays, false)
        invariant files == map name | name in before
            && (name in todo || Judge(stem, name, today - keepDays, false) != Remove) :: before[name]
        decreases todo
      {
        var name :| name in todo;
        PanicsExactlyOn(stem, name, today - keepDays, checked);
        OnlyPanicDiffers(stem, name, today - keepDays, checked);
        var verdict := Judge(stem, name, today - keepDays, checked);
        if verdict == Panic { return true; }
        if verdict == Remove { files := files - {name}; }
        todo := todo - {name};
      }
      return false;
    }

    /** Open the file of the day, and clean up. */
    method RollTo(today: nat) returns (panicked: bool)
      modifies this`files, this`openDate
      ensures openDate == Some(DateText(today))
      ensures panicked <==> SomeFatal(stem, old(files), checked)
      ensures !panicked ==> Rolled(old(files), files, stem, today - keepDays, FileFor(stem, DateText(today)), checked)
    {
      var date := DateText(today);
      var current := FileFor(stem, date);
      ghost var before := files;
      CurrentIsKept(stem, today, keepDays, checked);
      if current !in files { files := files[current := []]; }
      ghost var during := files;
      SameFatal(before, during, stem, current, checked);
      openDate := Some(date);
      panicked := CleanupOld(today);
      if !panicked { CleanedIsRolled(before, during, files, stem, today - keepDays, current, checked); }
    }

    method WriteLine(line: string, secs: nat) returns (panicked: bool)
      modifies this`files, this`openDate
      ensures openDate == Some(DateText(secs / 86_400))
      ensures panicked <==> openDate != old(openDate) && SomeFatal(stem, old(files), checked)
      ensures !panicked ==>
                var today := secs / 86_400;
                var current := FileFor(stem, DateText(today));
                if openDate == old(openDate) then Written(old(files), files, current, line)
                else exists rolled :: Rolled(old(files), rolled, stem, today - keepDays, current, checked)
                                      && Written(rolled, files, current, line)
    {
      var today := secs / 86_400;
      var date := DateText(today);
      panicked := false;
      if openDate != Some(date) {
        panicked := RollTo(today);
        if panicked { return; }
      }
      var current := FileFor(stem, date);
      AppendIsWritten(files, current, line);
      files := Append(files, current, line);
    }
  }

  /** The file of the day neither makes cleanup panic nor is removed. */
  lemma CurrentIsKept(stem: string, day: nat, keepDays: nat, checked: bool)
    ensures var current := FileFor(stem, DateText(day));
            !Fatal(stem, current, checked) && Judge(stem, current, day - keepDays, checked) == Keep
  {
    RetentionRule(stem, day, day, keepDays, checked);
    PanicsExactlyOn(stem, FileFor(stem, DateText(day)), day - keepDays, checked);
  }
}
