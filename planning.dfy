/**
 * Path planning (the `map` in `moveFiles`): every extended file gets a
 * destination folder `dst/YYYY/YYYY-MM/` and a destination file path in it.
 *
 * The local calendar year and month of the filing date (`getFullYear()`
 * and `getMonth() + 1` of a `Date`) are inputs: time zones are not modelled.
 */
module Planning {
  import opened Decimal
  import opened Paths
  import opened ExtendedFiles

  type Month = m: int | 1 <= m <= 12 witness 1

  /** The local calendar year and month of a date. */
  datatype LocalDate = LocalDate(year: int, month: Month)

  /** `('0' + month).slice(-2)`: the month zero-padded to two digits. */
  function MonthText(m: Month): (mm: string)
    ensures |mm| == 2 && AllDigits(mm) && ParseNat(mm) == m
  {
    var s := "0" + IntToString(m);
    if m < 10 then
      assert s == ['0', DigitChar(m)];
      assert ParseNat(s[..1]) == 0;
      s[|s| - 2..]
    else
      assert NatToString(m) == NatToString(1) + [DigitChar(m % 10)];
      assert s == ['0', '1', DigitChar(m % 10)];
      assert s[|s| - 2..] == ['1', DigitChar(m % 10)];
      assert ParseNat(['1']) == 1 by { assert ['1'][..0] == []; }
      assert ['1', DigitChar(m % 10)][..1] == ['1'];
      s[|s| - 2..]
  }

  /** The name of the month bucket, `YYYY-MM`. */
  function MonthFolderName(when: LocalDate): (r: string) {
    IntToString(when.year) + "-" + MonthText(when.month)
  }

  /** `dstFolder`: `dst/YYYY/YYYY-MM/`. */
  function DstFolder(dst: string, when: LocalDate): (r: string) {
    dst + "/" + IntToString(when.year) + "/" + MonthFolderName(when) + "/"
  }

  /** One entry of `filesForFiling`. */
  datatype FilingPlan = FilingPlan(
    name: string,
    srcFilePath: string,
    dstPath: string,
    dstFilePath: string,
    stats: Stats)

  /** The plan for one file, given the local calendar date of its filing date. */
  function PlanFiling(dst: string, file: ExtendedFile, when: LocalDate): (p: FilingPlan)
    ensures p.name == file.name && p.srcFilePath == file.path && p.stats == file.stats
    ensures p.dstFilePath == p.dstPath + file.name
  {
    var folder := DstFolder(dst, when);
    FilingPlan(file.name, file.path, folder, folder + file.name, file.stats)
  }

  /** `files.map(...)`: one plan per file, in the same order; `localDate` stands for the
      local-time reading of a `Date`. */
  function PlanAll(dst: string, files: seq<ExtendedFile>, localDate: Instant -> LocalDate): (ps: seq<FilingPlan>)
    ensures |ps| == |files|
    ensures forall i :: 0 <= i < |files| ==>
      ps[i] == PlanFiling(dst, files[i], localDate(files[i].filingCreatedDate))
  {
    seq(|files|, i requires 0 <= i < |files| => PlanFiling(dst, files[i], localDate(files[i].filingCreatedDate)))
  }

  /** Made of digits and '-' only. */
  predicate DigitsOrDash(s: string) {
    forall j :: 0 <= j < |s| ==> s[j] == '-' || IsDigit(s[j])
  }

  lemma DigitsOrDashConcat(a: string, b: string)
    requires DigitsOrDash(a) && DigitsOrDash(b)
    ensures DigitsOrDash(a + b)
  {
    forall j | 0 <= j < |a + b|
      ensures (a + b)[j] == '-' || IsDigit((a + b)[j])
    {
      if j >= |a| {
        assert (a + b)[j] == b[j - |a|];
      }
    }
  }

  lemma IntTextDigitsOrDash(n: int)
    ensures DigitsOrDash(IntToString(n)) && IntToString(n) != []
  {
    var digits := if n < 0 then NatToString(-n) else NatToString(n);
    assert DigitsOrDash(digits);
    if n < 0 {
      DigitsOrDashConcat("-", digits);
    }
  }

  lemma DigitsOrDashNoSlash(s: string)
    requires DigitsOrDash(s)
    ensures NoSlash(s)
  {
  }

  /** The year folder and the month folder are single path segments. */
  lemma FolderNamesAreSegments(when: LocalDate)
    ensures IsSegment(IntToString(when.year))
    ensures IsSegment(MonthFolderName(when))
  {
    var y := IntToString(when.year);
    IntTextDigitsOrDash(when.year);
    var mm := MonthText(when.month);
    assert DigitsOrDash(mm);
    DigitsOrDashConcat(y, "-");
    DigitsOrDashConcat(y + "-", mm);
    DigitsOrDashNoSlash(y);
    DigitsOrDashNoSlash(MonthFolderName(when));
  }


  /** The destination folder names the location `dst`, then the year, then `YYYY-MM`. */
  lemma DstFolderResolves(dst: string, when: LocalDate)
    ensures Resolve(DstFolder(dst, when)) == Resolve(dst) + [IntToString(when.year), MonthFolderName(when)]
  {
    var y := IntToString(when.year);
    var ym := MonthFolderName(when);
    FolderNamesAreSegments(when);
    ResolveJoin(dst, y);
    ResolveSegment(y);
    ResolveJoin(dst + "/" + y, ym);
    ResolveSegment(ym);
    ResolveTrailingSlash(dst + "/" + y + "/" + ym);
  }

  /** The plan's layout: the folder resolves to `dst/YYYY/YYYY-MM`, with `MM` the two-digit
      month, and the file path to that folder followed by the file's name. */
  lemma PlanLayout(dst: string, file: ExtendedFile, when: LocalDate)
    requires IsSegment(file.name)
    ensures var p := PlanFiling(dst, file, when);
      && Resolve(p.dstPath) == Resolve(dst) + [IntToString(when.year), MonthFolderName(when)]
      && Resolve(p.dstFilePath) == Resolve(p.dstPath) + [file.name]
      && |MonthText(when.month)| == 2 && ParseNat(MonthText(when.month)) == when.month
  {
    var folder := DstFolder(dst, when);
    var body := dst + "/" + IntToString(when.year) + "/" + MonthFolderName(when);
    DstFolderResolves(dst, when);
    assert folder + file.name == body + "/" + file.name;
    ResolveJoin(body, file.name);
    ResolveSegment(file.name);
    ResolveTrailingSlash(body);
    assert folder == body + "/";
  }

  /** Different calendar months never share a destination folder under one root. */
  lemma DstFolderInjective(dst: string, w1: LocalDate, w2: LocalDate)
    requires Resolve(DstFolder(dst, w1)) == Resolve(DstFolder(dst, w2))
    ensures w1 == w2
  {
    DstFolderResolves(dst, w1);
    DstFolderResolves(dst, w2);
    var r := Resolve(dst);
    assert (r + [IntToString(w1.year), MonthFolderName(w1)])[|r|] == IntToString(w1.year);
    assert (r + [IntToString(w2.year), MonthFolderName(w2)])[|r|] == IntToString(w2.year);
    assert (r + [IntToString(w1.year), MonthFolderName(w1)])[|r| + 1] == MonthFolderName(w1);
    assert (r + [IntToString(w2.year), MonthFolderName(w2)])[|r| + 1] == MonthFolderName(w2);
    IntToStringInjective(w1.year, w2.year);
    var n1 := MonthFolderName(w1);
    var n2 := MonthFolderName(w2);
    assert n1[|n1| - 2..] == MonthText(w1.month);
    assert n2[|n2| - 2..] == MonthText(w2.month);
  }

  /** A destination root given with its trailing '/' (which doubles the slash) names the
      same folders. */
  lemma DstFolderTrailingSlash(dst: string, when: LocalDate)
    ensures Resolve(DstFolder(WithTrailingSlash(dst), when)) == Resolve(DstFolder(dst, when))
  {
    DstFolderResolves(dst, when);
    DstFolderResolves(WithTrailingSlash(dst), when);
  }

  /** Every planned folder path ends with '/'. */
  lemma PlannedFolderEndsWithSlash(dst: string, file: ExtendedFile, when: LocalDate)
    ensures EndsWithSlash(PlanFiling(dst, file, when).dstPath)
  {
  }

  /** A photo whose filing date falls in May 2021 is filed in `/dest/2021/2021-05/`. */
  lemma PlanExample()
    ensures DstFolder("/dest", LocalDate(2021, 5)) == "/dest/2021/2021-05/"
  {
    assert NatToString(2) == "2";
    assert NatToString(20) == "20";
    assert NatToString(202) == "202";
    assert NatToString(2021) == "2021";
    assert MonthText(5) == "05";
  }
}
