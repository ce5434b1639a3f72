/** The CSV export of the statistics page (`export.ts`): the rows written,
    in order, and the text they are joined into. Every number is written
    with `String(n)` for an integer `n`. */
module Export {
  import opened Options
  import opened Text
  import opened Stats

  /** `<caption>,<n><unit>`. */
  function LabelledRow(caption: string, n: int, unit: string): (row: string)
    ensures '\n' !in caption && '\n' !in unit ==> '\n' !in row
  {
    NoCommaInNumber(n);
    assert '\n' !in caption && '\n' !in unit ==> '\n' !in Join([caption, IntToString(n) + unit], ',') by {
      if '\n' !in caption && '\n' !in unit {
        JoinAvoids([caption, IntToString(n) + unit], ',', '\n');
      }
    }
    Join([caption, IntToString(n) + unit], ',')
  }

  const SummaryCaptions: seq<string> := [
    "Всего проверено", "Проверено сегодня", "Проверено за неделю", "Проверено за месяц",
    "Процент одобренных", "Процент отклоненных", "Процент на доработку", "Среднее время проверки"]

  const SummaryUnits: seq<string> := ["", "", "", "", "%", "%", "%", " сек"]

  function SummaryValues(s: Summary): seq<int> {
    [s.totalReviewed, s.totalReviewedToday, s.totalReviewedThisWeek, s.totalReviewedThisMonth,
     s.approvedPercentage, s.rejectedPercentage, s.requestChangesPercentage, s.averageReviewTime]
  }

  /** The eight summary lines, in the order they are written: the four
      counts, the three percentages with `%`, the average time with ` сек`. */
  function SummaryRows(s: Summary): (rows: seq<string>)
    ensures |rows| == 8
  {
    seq(8, k requires 0 <= k < 8 => LabelledRow(SummaryCaptions[k], SummaryValues(s)[k], SummaryUnits[k]))
  }

  /** Each summary line splits on commas into its caption and its figure,
      and for the four counts the figure reads back as the number. */
  lemma SummaryRowFields(s: Summary, k: nat)
    requires k < 8
    ensures Split(SummaryRows(s)[k], ',') == [SummaryCaptions[k], IntToString(SummaryValues(s)[k]) + SummaryUnits[k]]
    ensures k < 4 ==> NumberOf(Split(SummaryRows(s)[k], ',')[1]) == Some(SummaryValues(s)[k])
  {
    var v := SummaryValues(s)[k];
    SummaryTablesNoComma(k);
    LabelledRowFields(SummaryCaptions[k], v, SummaryUnits[k]);
    if k < 4 {
      assert SummaryUnits[k] == "";
      NumberOfIntToString(v);
    }
  }

  /** A labelled line splits back into its caption and its figure when
      neither the caption nor the unit holds a comma. */
  lemma LabelledRowFields(caption: string, n: int, unit: string)
    requires ',' !in caption && ',' !in unit
    ensures Split(LabelledRow(caption, n, unit), ',') == [caption, IntToString(n) + unit]
  {
    NoCommaInNumber(n);
    SplitJoin([caption, IntToString(n) + unit], ',');
  }

  lemma SummaryTablesNoComma(k: nat)
    requires k < 8
    ensures ',' !in SummaryCaptions[k] && ',' !in SummaryUnits[k]
  {
  }

  /** One line per day: date and the three counts, comma separated. */
  function ActivityRow(a: Activity): string {
    Join([a.date, IntToString(a.approved), IntToString(a.rejected), IntToString(a.requestChanges)], ',')
  }

  /** One line per category: its name and its count. */
  function CategoryRow(c: (string, int)): string {
    Join([c.0, IntToString(c.1)], ',')
  }

  function DecisionRows(d: Decisions): (rows: seq<string>)
    ensures |rows| == 3
    ensures forall k :: 0 <= k < 3 ==> '\n' !in rows[k]
  {
    DecisionCaptionsPlain();
    [LabelledRow("Одобрено", d.approved, "%"), LabelledRow("Отклонено", d.rejected, "%"), LabelledRow("На доработку", d.requestChanges, "%")]
  }

  lemma DecisionCaptionsPlain()
    ensures '\n' !in "Одобрено" && '\n' !in "Отклонено" && '\n' !in "На доработку" && '\n' !in "%"
  {
  }

  /** The exported decision lines and the page's decision chart agree: line
      `k` splits into the chart entry's name and its value with `%`. */
  lemma DecisionRowsMatchChart(d: Decisions, k: nat)
    requires k < 3
    ensures Split(DecisionRows(d)[k], ',') == [DecisionsChart(d)[k].name, IntToString(DecisionsChart(d)[k].value) + "%"]
  {
    var e := DecisionsChart(d)[k];
    DecisionCaptionsNoComma(d, k);
    LabelledRowFields(e.name, e.value, "%");
  }

  lemma DecisionCaptionsNoComma(d: Decisions, k: nat)
    requires k < 3
    ensures ',' !in DecisionsChart(d)[k].name && ',' !in "%"
  {
  }

  /** The "total reviewed" figure the page shows for a period is the figure
      the export writes on its first summary line, or on the second for
      `today`. */
  lemma TotalReviewedInExport(period: string, s: Summary)
    ensures var line := if period == "today" then 1 else 0;
      Split(SummaryRows(s)[line], ',') == [SummaryCaptions[line], IntToString(TotalReviewed(period, s))]
    ensures var line := if period == "today" then 1 else 0;
      NumberOf(Split(SummaryRows(s)[line], ',')[1]) == Some(TotalReviewed(period, s))
  {
    var line := if period == "today" then 1 else 0;
    CountRowFields(s, line, TotalReviewed(period, s));
  }

  /** A count line splits into its caption and the count, which reads back. */
  lemma CountRowFields(s: Summary, k: nat, n: int)
    requires k < 4 && SummaryValues(s)[k] == n
    ensures Split(SummaryRows(s)[k], ',') == [SummaryCaptions[k], IntToString(n)]
    ensures NumberOf(Split(SummaryRows(s)[k], ',')[1]) == Some(n)
  {
    SummaryRowFields(s, k);
  }

  const Header: seq<string> := ["Статистика модератора", "", "Общая статистика"]
  const ActivityHeader: seq<string> := ["", "Активность по дням", "Дата,Одобрено,Отклонено,На доработку"]
  const DecisionsHeader: seq<string> := ["", "Распределение решений"]
  const CategoriesHeader: seq<string> := ["", "Распределение по категориям", "Категория,Количество"]

  function ActivityRows(activity: seq<Activity>): (rows: seq<string>)
    ensures |rows| == |activity|
    ensures forall i :: 0 <= i < |activity| ==> rows[i] == ActivityRow(activity[i])
  {
    seq(|activity|, i requires 0 <= i < |activity| => ActivityRow(activity[i]))
  }

  function CategoryRows(categories: Categories): (rows: seq<string>)
    ensures |rows| == |categories|
    ensures forall i :: 0 <= i < |categories| ==> rows[i] == CategoryRow(categories[i])
  {
    seq(|categories|, i requires 0 <= i < |categories| => CategoryRow(categories[i]))
  }

  /** The rows of `exportStatsToCSV`, in the order they are pushed. */
  function CsvRows(s: Summary, activity: seq<Activity>, d: Decisions, categories: Categories): (rows: seq<string>)
    ensures |rows| == 22 + |activity| + |categories|
  {
    Header + (SummaryRows(s) + (ActivityHeader + (ActivityRows(activity)
      + (DecisionsHeader + (DecisionRows(d) + (CategoriesHeader + CategoryRows(categories)))))))
  }

  /** Where each part lands: the title, the eight summary lines, the day
      lines from row 14, the three decision lines after their heading, and
      the category lines last. */
  lemma CsvRowsLayout(s: Summary, activity: seq<Activity>, d: Decisions, categories: Categories)
    ensures var rows := CsvRows(s, activity, d, categories);
      && rows[0] == "Статистика модератора" && rows[2] == "Общая статистика"
      && rows[3..11] == SummaryRows(s)
      && rows[12] == "Активность по дням"
      && rows[14..14 + |activity|] == ActivityRows(activity)
      && rows[14 + |activity| + 1] == "Распределение решений"
      && rows[14 + |activity| + 2 .. 14 + |activity| + 5] == DecisionRows(d)
      && rows[14 + |activity| + 6] == "Распределение по категориям"
      && rows[22 + |activity|..] == CategoryRows(categories)
  {
    Sections(Header, SummaryRows(s), ActivityHeader, ActivityRows(activity), DecisionsHeader, DecisionRows(d), CategoriesHeader, CategoryRows(categories));
  }

  /** Slicing the nested concatenation `CsvRows` builds, for sections of the
      lengths it uses. */
  lemma Sections<T>(h: seq<T>, s: seq<T>, ah: seq<T>, days: seq<T>, dh: seq<T>, dr: seq<T>, ch: seq<T>, cats: seq<T>)
    requires |h| == 3 && |s| == 8 && |ah| == 3 && |dh| == 2 && |dr| == 3 && |ch| == 3
    ensures var rows := h + (s + (ah + (days + (dh + (dr + (ch + cats))))));
      var a := |days|;
      && rows[0] == h[0] && rows[2] == h[2]
      && rows[3..11] == s
      && rows[12] == ah[1]
      && rows[14..14 + a] == days
      && rows[14 + a + 1] == dh[1]
      && rows[14 + a + 2 .. 14 + a + 5] == dr
      && rows[14 + a + 6] == ch[1]
      && rows[22 + a..] == cats
  {
    var a := |days|;
    var rows := h + (s + (ah + (days + (dh + (dr + (ch + cats))))));
    var tail := dh + (dr + (ch + cats));
    assert rows[14..] == days + tail;
    assert rows[14 + a..] == tail;
    assert rows[14 + a + 2 .. 14 + a + 5] == rows[14 + a..][2..5];
    assert rows[22 + a..] == rows[14 + a..][8..];
  }

  const ByteOrderMark: char := '﻿'

  /** The file body: a byte order mark, then the rows joined by newlines. */
  function CsvContent(s: Summary, activity: seq<Activity>, d: Decisions, categories: Categories): (text: string)
    ensures |text| >= 1 && text[0] == ByteOrderMark
  {
    [ByteOrderMark] + Join(CsvRows(s, activity, d, categories), '\n')
  }

  /** Reads a day line back: four comma-separated fields, the last three
      numbers. */
  function ParseActivityRow(row: string): (a: Option<Activity>)
    ensures a.Some? ==> |Split(row, ',')| == 4 && a.value.date == Split(row, ',')[0]
  {
    var f := Split(row, ',');
    if |f| != 4 then None
    else match (NumberOf(f[1]), NumberOf(f[2]), NumberOf(f[3]))
      case (Some(x), Some(y), Some(z)) => Some(Activity(f[0], x, y, z))
      case _ => None
  }

  /** Reads a category line back: a name and a number. */
  function ParseCategoryRow(row: string): (c: Option<(string, int)>)
    ensures c.Some? ==> |Split(row, ',')| == 2 && c.value.0 == Split(row, ',')[0]
  {
    var f := Split(row, ',');
    if |f| != 2 then None
    else match NumberOf(f[1])
      case Some(n) => Some((f[0], n))
      case None => None
  }

  lemma NoCommaInNumber(n: int)
    ensures ',' !in IntToString(n) && '\n' !in IntToString(n)
  {
  }

  /** A day line reads back as the day it was written from, as long as the
      date has no comma. */
  lemma ActivityRowRoundTrip(a: Activity)
    requires ',' !in a.date
    ensures ParseActivityRow(ActivityRow(a)) == Some(a)
  {
    ActivityRowFields(a);
    NumberOfIntToString(a.approved);
    NumberOfIntToString(a.rejected);
    NumberOfIntToString(a.requestChanges);
  }

  lemma ActivityRowFields(a: Activity)
    requires ',' !in a.date
    ensures Split(ActivityRow(a), ',') == [a.date, IntToString(a.approved), IntToString(a.rejected), IntToString(a.requestChanges)]
  {
    NoCommaInNumber(a.approved);
    NoCommaInNumber(a.rejected);
    NoCommaInNumber(a.requestChanges);
    SplitJoin([a.date, IntToString(a.approved), IntToString(a.rejected), IntToString(a.requestChanges)], ',');
  }

  /** A category line reads back as the category entry, as long as the name
      has no comma. */
  lemma CategoryRowRoundTrip(c: (string, int))
    requires ',' !in c.0
    ensures ParseCategoryRow(CategoryRow(c)) == Some(c)
  {
    NoCommaInNumber(c.1);
    SplitJoin([c.0, IntToString(c.1)], ',');
    NumberOfIntToString(c.1);
  }

  predicate NoNewlines(rows: seq<string>) {
    forall i :: 0 <= i < |rows| ==> '\n' !in rows[i]
  }

  lemma NoNewlinesConcat(x: seq<string>, y: seq<string>)
    requires NoNewlines(x) && NoNewlines(y)
    ensures NoNewlines(x + y)
  {
    forall i | 0 <= i < |x + y| ensures '\n' !in (x + y)[i] {
      if i >= |x| {
        assert (x + y)[i] == y[i - |x|];
      }
    }
  }

  /** Rows keep their boundaries: splitting the text after the byte order
      mark on newlines gives back every row, as long as no date and no
      category name holds a newline. */
  lemma CsvLines(s: Summary, activity: seq<Activity>, d: Decisions, categories: Categories)
    requires forall i :: 0 <= i < |activity| ==> '\n' !in activity[i].date
    requires forall i :: 0 <= i < |categories| ==> '\n' !in categories[i].0
    ensures Split(CsvContent(s, activity, d, categories)[1..], '\n') == CsvRows(s, activity, d, categories)
  {
    var days := ActivityRows(activity);
    forall i | 0 <= i < |days| ensures '\n' !in days[i] {
      var x := activity[i];
      NoCommaInNumber(x.approved);
      NoCommaInNumber(x.rejected);
      NoCommaInNumber(x.requestChanges);
      JoinAvoids([x.date, IntToString(x.approved), IntToString(x.rejected), IntToString(x.requestChanges)], ',', '\n');
    }
    var cats := CategoryRows(categories);
    forall i | 0 <= i < |cats| ensures '\n' !in cats[i] {
      NoCommaInNumber(categories[i].1);
      JoinAvoids([categories[i].0, IntToString(categories[i].1)], ',', '\n');
    }
    SummaryRowsNoNewlines(s);
    HeadersNoNewlines();
    NoNewlinesConcat(CategoriesHeader, cats);
    NoNewlinesConcat(DecisionRows(d), CategoriesHeader + cats);
    NoNewlinesConcat(DecisionsHeader, DecisionRows(d) + (CategoriesHeader + cats));
    var tail := DecisionsHeader + (DecisionRows(d) + (CategoriesHeader + cats));
    NoNewlinesConcat(days, tail);
    NoNewlinesConcat(ActivityHeader, days + tail);
    NoNewlinesConcat(SummaryRows(s), ActivityHeader + (days + tail));
    NoNewlinesConcat(Header, SummaryRows(s) + (ActivityHeader + (days + tail)));
    var rows := CsvRows(s, activity, d, categories);
    SplitJoin(rows, '\n');
    assert CsvContent(s, activity, d, categories)[1..] == Join(rows, '\n');
  }

  lemma SummaryRowsNoNewlines(s: Summary)
    ensures NoNewlines(SummaryRows(s))
  {
    forall k | 0 <= k < 8 ensures '\n' !in SummaryRows(s)[k] {
      SummaryRowNoNewline(s, k);
    }
  }

  lemma SummaryRowNoNewline(s: Summary, k: nat)
    requires k < 8
    ensures '\n' !in SummaryRows(s)[k]
  {
    if k < 4 {
      assert '\n' !in SummaryCaptions[k] && SummaryUnits[k] == "";
    } else {
      assert '\n' !in SummaryCaptions[k] && '\n' !in SummaryUnits[k];
    }
  }

  lemma HeadersNoNewlines()
    ensures NoNewlines(Header) && NoNewlines(ActivityHeader)
    ensures NoNewlines(DecisionsHeader) && NoNewlines(CategoriesHeader)
  {
    TitleNoNewlines();
    ActivityHeaderNoNewlines();
    CategoriesHeaderNoNewlines();
    assert '\n' !in DecisionsHeader[1];
  }

  lemma TitleNoNewlines()
    ensures NoNewlines(Header)
  {
    assert '\n' !in Header[0] && '\n' !in Header[2];
  }

  lemma ActivityHeaderNoNewlines()
    ensures NoNewlines(ActivityHeader)
  {
    assert '\n' !in ActivityHeader[1] && '\n' !in ActivityHeader[2];
  }

  lemma CategoriesHeaderNoNewlines()
    ensures NoNewlines(CategoriesHeader)
  {
    assert '\n' !in CategoriesHeader[1] && '\n' !in CategoriesHeader[2];
  }
}
