/** What the Detection page shows for a state: the results panel and, inside
    it, the diagnosis report with its four sections. Styling, icons' colours
    and animation are not modelled; only which parts appear, in what order,
    with what text and which marker. */
module Render {
  import opened Wrappers
  import Page

  /** The icon in front of a row: a cross for "no disease", a check otherwise. */
  datatype Marker = Cross | Check

  /** One list item of a section. */
  datatype Row = Row(marker: Marker, text: string)

  /** One section: the data key it lists, its heading and its rows. */
  datatype Section = Section(key: string, heading: string, rows: seq<Row>)

  /** The diagnosis block: disease name, confidence badge and the sections. */
  datatype Report = Report(title: string, badge: string, sections: seq<Section>)

  /** The results panel, or nothing. */
  datatype View =
    | Hidden
    | Panel(image: Option<string>, spinner: bool, alert: Option<string>, report: Option<Report>)

  /** The disease name the model is told to give a healthy crop. */
  const NoDisease: string := "No disease detected"

  /** The keys of the listed sections, in the order the page renders them. */
  const SectionKeys: seq<string> := ["symptoms", "causes", "treatments", "preventive_measures"]

  /** JavaScript truthiness of a string-or-null state variable: null and the
      empty string are falsy. */
  predicate Truthy(v: Option<string>)
  {
    v.Some? && v.value != ""
  }

  /** `s.replace(from, to)` with a one-character string pattern: only the
      first occurrence is replaced. */
  function ReplaceFirst(s: string, from: char, to: char): (r: string)
    ensures |r| == |s|
    ensures forall i :: 0 <= i < |s| ==> r[i] == (if s[i] == from && from !in s[..i] then to else s[i])
  {
    if s == [] then []
    else if s[0] == from then [to] + s[1..]
    else
      var tail := ReplaceFirst(s[1..], from, to);
      assert forall i :: 1 <= i < |s| ==> s[1..][..i - 1] == s[1..i];
      [s[0]] + tail
  }

  /** The heading shown for a section key. */
  function Heading(key: string): string
  {
    ReplaceFirst(key, '_', ' ')
  }

  /** `diseaseData[section]` for one of the four section keys. */
  function Field(d: Page.DiseaseData, key: string): seq<string>
    requires key in SectionKeys
  {
    if key == "symptoms" then d.symptoms
    else if key == "causes" then d.causes
    else if key == "treatments" then d.treatments
    else d.preventiveMeasures
  }

  /** The marker every row of the report carries. */
  function MarkerFor(d: Page.DiseaseData): Marker
  {
    if d.diseaseName == NoDisease then Cross else Check
  }

  /** `items.map(item => <li>marker item</li>)`: one row per item, in order. */
  function Rows(items: seq<string>, m: Marker): (rows: seq<Row>)
    ensures |rows| == |items|
    ensures forall i :: 0 <= i < |items| ==> rows[i].marker == m
  {
    if items == [] then [] else [Row(m, items[0])] + Rows(items[1..], m)
  }

  /** The texts of the rows, in order. */
  function Texts(rows: seq<Row>): seq<string>
  {
    if rows == [] then [] else [rows[0].text] + Texts(rows[1..])
  }

  /** The rows of a section list exactly the items, in list order. */
  lemma {:induction false} TextsOfRows(items: seq<string>, m: Marker)
    ensures Texts(Rows(items, m)) == items
  {
    if items != [] {
      TextsOfRows(items[1..], m);
    }
  }

  /** One section of the report. */
  function RenderSection(d: Page.DiseaseData, key: string): Section
    requires key in SectionKeys
  {
    Section(key, Heading(key), Rows(Field(d, key), MarkerFor(d)))
  }

  /** The diagnosis block for a data value: the four sections in fixed order,
      each listing its field's items in order, every row with the same marker,
      a cross exactly when the disease name is the "no disease" sentinel. */
  function RenderReport(d: Page.DiseaseData): (r: Report)
    ensures r.title == d.diseaseName && r.badge == d.confidence
    ensures |r.sections| == |SectionKeys|
    ensures forall k :: 0 <= k < |SectionKeys| ==>
      && r.sections[k].key == SectionKeys[k]
      && r.sections[k].heading == Heading(SectionKeys[k])
      && Texts(r.sections[k].rows) == Field(d, SectionKeys[k])
    ensures forall k, i :: 0 <= k < |r.sections| && 0 <= i < |r.sections[k].rows| ==>
      (r.sections[k].rows[i].marker == Cross <==> d.diseaseName == NoDisease)
  {
    var sections := seq(|SectionKeys|, k requires 0 <= k < |SectionKeys| => RenderSection(d, SectionKeys[k]));
    forall k | 0 <= k < |SectionKeys|
      ensures Texts(sections[k].rows) == Field(d, SectionKeys[k])
    {
      TextsOfRows(Field(d, SectionKeys[k]), MarkerFor(d));
    }
    Report(d.diseaseName, d.confidence, sections)
  }

  /** The results panel for a page state. */
  function Render(s: Page.PageState): (v: View)
    ensures v.Panel? <==> Truthy(s.preview) || s.loading || Truthy(s.error) || s.data.Some?
    ensures v.Panel? ==> (v.image.Some? <==> Truthy(s.preview)) && (v.image.Some? ==> v.image == s.preview)
    ensures v.Panel? ==> v.spinner == s.loading
    ensures v.Panel? ==> (v.alert.Some? <==> Truthy(s.error)) && (v.alert.Some? ==> v.alert == s.error)
    ensures v.Panel? ==> (v.report.Some? <==> s.data.Some?)
    ensures v.Panel? && s.data.Some? ==> v.report == Some(RenderReport(s.data.value))
  {
    if Truthy(s.preview) || s.loading || Truthy(s.error) || s.data.Some? then
      Panel(
        if Truthy(s.preview) then s.preview else None,
        s.loading,
        if Truthy(s.error) then s.error else None,
        if s.data.Some? then Some(RenderReport(s.data.value)) else None)
    else Hidden
  }

  /** On every reachable state the results panel is shown exactly when one of
      the four state variables is set, which is exactly when the page has
      left its initial state. */
  lemma PanelShownIffAnythingSet(s: Page.PageState)
    requires Page.Consistent(s)
    ensures Render(s).Panel? <==> (s.preview.Some? || s.loading || s.error.Some? || s.data.Some?)
    ensures Render(s).Panel? <==> s != Page.Initial
  {
  }

  /** Replacing in text whose first `from` follows the prefix `a`: only that
      character changes. */
  lemma {:induction false} ReplaceFirstAfterPrefix(a: string, b: string, from: char, to: char)
    requires from !in a
    ensures ReplaceFirst(a + [from] + b, from, to) == a + [to] + b
  {
    var s := a + [from] + b;
    if a == [] {
      assert s[0] == from && s[1..] == b;
    } else {
      assert s[0] == a[0] && a[0] in a;
      assert s[1..] == a[1..] + [from] + b;
      assert ReplaceFirst(s, from, to) == [a[0]] + ReplaceFirst(s[1..], from, to);
      ReplaceFirstAfterPrefix(a[1..], b, from, to);
      assert a + [to] + b == [a[0]] + (a[1..] + [to] + b);
    }
  }

  /** A key without an underscore is shown as it is. */
  lemma HeadingOfPlainKey(key: string)
    requires '_' !in key
    ensures Heading(key) == key
  {
    forall i | 0 <= i < |key| ensures Heading(key)[i] == key[i] {
      assert key[i] in key;
    }
  }

  /** Three of the section keys are single words. The key is a parameter,
      pinned by the precondition, so the solver sees each literal only here. */
  lemma PlainKeysHaveNoUnderscore(key: string)
    requires key == "symptoms" || key == "causes" || key == "treatments"
    ensures '_' !in key
  {
  }

  /** The three plain keys are shown as they are. */
  lemma PlainKeyHeadings()
    ensures Heading("symptoms") == "symptoms"
    ensures Heading("causes") == "causes"
    ensures Heading("treatments") == "treatments"
  {
    PlainKeysHaveNoUnderscore("symptoms");
    HeadingOfPlainKey("symptoms");
    PlainKeysHaveNoUnderscore("causes");
    HeadingOfPlainKey("causes");
    PlainKeysHaveNoUnderscore("treatments");
    HeadingOfPlainKey("treatments");
  }

  /** `preventive_measures` splits at its one underscore. The parts are
      parameters, pinned by the precondition, so the solver sees the literals
      only here. */
  lemma PreventiveMeasuresParts(head: string, tail: string)
    requires head == "preventive" && tail == "measures"
    ensures '_' !in head
    ensures head + ['_'] + tail == "preventive_measures"
    ensures head + [' '] + tail == "preventive measures"
  {
  }

  /** The one key with an underscore reads as two words. */
  lemma PreventiveMeasuresHeading()
    ensures Heading("preventive_measures") == "preventive measures"
  {
    PreventiveMeasuresParts("preventive", "measures");
    ReplaceFirstAfterPrefix("preventive", "measures", '_', ' ');
  }

  /** A second underscore survives: the heading replaces once, not globally. */
  lemma LaterUnderscoresKept(key: string, i: nat, j: nat)
    requires i < j < |key| && key[i] == '_' && key[j] == '_'
    ensures Heading(key)[j] == '_'
  {
    assert key[..j][i] == '_';
  }

  /** A "no disease" diagnosis with empty lists, as the model is told to give,
      renders four empty sections. */
  lemma HealthyReportHasNoRows(d: Page.DiseaseData)
    requires d.diseaseName == NoDisease
    requires d.symptoms == [] && d.causes == [] && d.treatments == [] && d.preventiveMeasures == []
    ensures forall k :: 0 <= k < |SectionKeys| ==> RenderReport(d).sections[k].rows == []
  {
  }
}
