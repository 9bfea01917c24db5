/**
 * Searching and matching endpoint records (`src/utils/matchers.ts`):
 * the relevance score of an endpoint for a query, the fields the query
 * matched, the lookup of one endpoint by name or URL, and the suggestions
 * of similarly named endpoints ranked by edit distance.
 */
module Matchers {
  import opened Base
  import opened Text
  import opened ApiDoc
  import opened Formatters
  import opened Sorting

  // ---------------------------------------------------------------------
  // the five searchable fields
  // ---------------------------------------------------------------------

  datatype MatchField = Name | Title | Description | Group | GroupTitle

  /** The fields in the order the source tests them. */
  const Fields: seq<MatchField> := [Name, Title, Description, Group, GroupTitle]

  /** The name the result reports for a matched field. */
  function Label(f: MatchField): String {
    match f
    case Name => "name"
    case Title => "title"
    case Description => "description"
    case Group => "group"
    case GroupTitle => "groupTitle"
  }

  /** Position of the field in `Fields`. */
  function Rank(f: MatchField): nat {
    match f
    case Name => 0
    case Title => 1
    case Description => 2
    case Group => 3
    case GroupTitle => 4
  }

  /** The points a match in the field is worth. */
  function Weight(f: MatchField): nat {
    match f
    case Name => 50
    case Title => 30
    case Description => 20
    case Group => 15
    case GroupTitle => 15
  }

  /** The field's value. */
  function FieldText(e: Endpoint, f: MatchField): String {
    match f
    case Name => e.name
    case Title => e.title
    case Description => e.description
    case Group => e.group
    case GroupTitle => e.groupTitle
  }

  /** The text the query is looked for in: the field's value, except that the
      description is looked for in its stripped form. */
  function SearchedText(e: Endpoint, f: MatchField): String {
    match f
    case Name => e.name
    case Title => e.title
    case Description => StripHtml(e.description)
    case Group => e.group
    case GroupTitle => e.groupTitle
  }

  /** A non-empty field whose lower-cased text includes the lower-cased query
      (an empty field is falsy and never matches). */
  predicate Matches(e: Endpoint, query: String, f: MatchField) {
    FieldText(e, f) != [] && Includes(ToLower(SearchedText(e, f)), ToLower(query))
  }

  /** The name equals the query, ignoring case. */
  predicate ExactName(e: Endpoint, query: String) {
    e.name != [] && ToLower(e.name) == ToLower(query)
  }

  /** The field, when the query matches it. */
  function Pick(e: Endpoint, query: String, f: MatchField): seq<MatchField> {
    if Matches(e, query, f) then [f] else []
  }

  /** The fields of `fs` that the query matches, in order. */
  function MatchedAmong(e: Endpoint, query: String, fs: seq<MatchField>): seq<MatchField> {
    if fs == [] then [] else Pick(e, query, fs[0]) + MatchedAmong(e, query, fs[1..])
  }

  /** The fields the query matches, in the order the source tests them. */
  function MatchedList(e: Endpoint, query: String): seq<MatchField> {
    MatchedAmong(e, query, Fields)
  }

  function Labels(fs: seq<MatchField>): seq<String> {
    if fs == [] then [] else [Label(fs[0])] + Labels(fs[1..])
  }

  /** The field names `getMatchedFields` reports. */
  function MatchedFields(e: Endpoint, query: String): seq<String> {
    Labels(MatchedList(e, query))
  }

  function TotalWeight(fs: seq<MatchField>): nat {
    if fs == [] then 0 else Weight(fs[0]) + TotalWeight(fs[1..])
  }

  /** The relevance the source computes, stated through the matched fields:
      the weight of every matched field, and 50 more when the name equals
      the query (an exact name is worth 100, a name that only contains the
      query 50). */
  function RelevanceScore(e: Endpoint, query: String): nat {
    TotalWeight(MatchedList(e, query)) + (if ExactName(e, query) then 50 else 0)
  }

  lemma {:induction false} LabelsAt(fs: seq<MatchField>)
    ensures |Labels(fs)| == |fs| && forall i :: 0 <= i < |fs| ==> Labels(fs)[i] == Label(fs[i])
    decreases |fs|
  {
    if fs != [] {
      LabelsAt(fs[1..]);
    }
  }

  lemma {:induction false} MatchedAmongMembers(e: Endpoint, query: String, fs: seq<MatchField>)
    ensures forall f :: f in MatchedAmong(e, query, fs) <==> f in fs && Matches(e, query, f)
    decreases |fs|
  {
    if fs != [] {
      MatchedAmongMembers(e, query, fs[1..]);
      assert fs == [fs[0]] + fs[1..];
    }
  }

  lemma Regroup<T>(a: seq<T>, b: seq<T>, c: seq<T>, d: seq<T>, e: seq<T>)
    ensures a + (b + (c + (d + e))) == a + b + c + d + e
  {
  }

  /** The matched fields, field by field. */
  lemma MatchedListAsList(e: Endpoint, query: String)
    ensures MatchedList(e, query)
            == Pick(e, query, Name) + Pick(e, query, Title) + Pick(e, query, Description)
             + Pick(e, query, Group) + Pick(e, query, GroupTitle)
  {
    var f4 := Fields[4..];
    assert f4 == [GroupTitle];
    assert f4[1..] == [];
    assert MatchedAmong(e, query, f4) == Pick(e, query, GroupTitle);
    var f3 := Fields[3..];
    assert f3[1..] == f4;
    assert MatchedAmong(e, query, f3) == Pick(e, query, Group) + Pick(e, query, GroupTitle);
    var f2 := Fields[2..];
    assert f2[1..] == f3;
    assert MatchedAmong(e, query, f2)
           == Pick(e, query, Description) + (Pick(e, query, Group) + Pick(e, query, GroupTitle));
    var f1 := Fields[1..];
    assert f1[1..] == f2;
    assert MatchedAmong(e, query, f1)
           == Pick(e, query, Title) + (Pick(e, query, Description) + (Pick(e, query, Group) + Pick(e, query, GroupTitle)));
    assert Fields[1..] == f1;
    Regroup(Pick(e, query, Name), Pick(e, query, Title), Pick(e, query, Description),
            Pick(e, query, Group), Pick(e, query, GroupTitle));
  }

  lemma {:induction false} TotalWeightAppend(a: seq<MatchField>, b: seq<MatchField>)
    ensures TotalWeight(a + b) == TotalWeight(a) + TotalWeight(b)
    decreases |a|
  {
    if a != [] {
      assert (a + b)[1..] == a[1..] + b;
      TotalWeightAppend(a[1..], b);
    } else {
      assert a + b == b;
    }
  }

  lemma {:induction false} LabelsAppend(a: seq<MatchField>, b: seq<MatchField>)
    ensures Labels(a + b) == Labels(a) + Labels(b)
    decreases |a|
  {
    if a != [] {
      assert (a + b)[1..] == a[1..] + b;
      LabelsAppend(a[1..], b);
    } else {
      assert a + b == b;
    }
  }

  /** What a field adds to the score: its weight when it matches. */
  function Contribution(e: Endpoint, query: String, f: MatchField): nat {
    if Matches(e, query, f) then Weight(f) else 0
  }

  /** The score, field by field. */
  lemma RelevanceAsSum(e: Endpoint, query: String)
    ensures RelevanceScore(e, query)
            == Contribution(e, query, Name) + Contribution(e, query, Title)
             + Contribution(e, query, Description) + Contribution(e, query, Group)
             + Contribution(e, query, GroupTitle) + (if ExactName(e, query) then 50 else 0)
  {
    MatchedListAsList(e, query);
    TotalWeight5(Pick(e, query, Name), Pick(e, query, Title), Pick(e, query, Description),
                 Pick(e, query, Group), Pick(e, query, GroupTitle));
    PickWeight(e, query, Name);
    PickWeight(e, query, Title);
    PickWeight(e, query, Description);
    PickWeight(e, query, Group);
    PickWeight(e, query, GroupTitle);
  }

  lemma PickWeight(e: Endpoint, query: String, f: MatchField)
    ensures TotalWeight(Pick(e, query, f)) == Contribution(e, query, f)
  {
  }

  lemma TotalWeight5(p1: seq<MatchField>, p2: seq<MatchField>, p3: seq<MatchField>,
                     p4: seq<MatchField>, p5: seq<MatchField>)
    ensures TotalWeight(p1 + p2 + p3 + p4 + p5)
            == TotalWeight(p1) + TotalWeight(p2) + TotalWeight(p3) + TotalWeight(p4) + TotalWeight(p5)
  {
    TotalWeightAppend(p1 + p2 + p3 + p4, p5);
    TotalWeightAppend(p1 + p2 + p3, p4);
    TotalWeightAppend(p1 + p2, p3);
    TotalWeightAppend(p1, p2);
  }

  /** `calculateRelevance`: the score built up field by field. */
  method CalculateRelevance(e: Endpoint, query: String) returns (score: nat)
    ensures score == RelevanceScore(e, query)
  {
    ReportedField(e, query, Name, e.name, e.name);
    ReportedField(e, query, Title, e.title, e.title);
    ReportedField(e, query, Description, e.description, StripHtml(e.description));
    ReportedField(e, query, Group, e.group, e.group);
    ReportedField(e, query, GroupTitle, e.groupTitle, e.groupTitle);
    IncludesSelf(ToLower(e.name));
    RelevanceAsSum(e, query);
    score := 0;
    var queryLower := ToLower(query);
    if e.name != [] {
      var name := ToLower(e.name);
      if name == queryLower {
        score := score + 100;
      } else if Includes(name, queryLower) {
        score := score + 50;
      }
    }
    if e.title != [] {
      var title := ToLower(e.title);
      if Includes(title, queryLower) {
        score := score + 30;
      }
    }
    if e.description != [] {
      var plainDesc := ToLower(StripHtml(e.description));
      if Includes(plainDesc, queryLower) {
        score := score + 20;
      }
    }
    if e.group != [] {
      var group := ToLower(e.group);
      if Includes(group, queryLower) {
        score := score + 15;
      }
    }
    if e.groupTitle != [] {
      var groupTitle := ToLower(e.groupTitle);
      if Includes(groupTitle, queryLower) {
        score := score + 15;
      }
    }
  }

  /** The name a field reports when the query matches it, and nothing otherwise. */
  function Reported(e: Endpoint, query: String, f: MatchField): seq<String> {
    if Matches(e, query, f) then [Label(f)] else []
  }

  /** The reported names, field by field. */
  lemma MatchedFieldsAsList(e: Endpoint, query: String)
    ensures MatchedFields(e, query)
            == Reported(e, query, Name) + Reported(e, query, Title) + Reported(e, query, Description)
             + Reported(e, query, Group) + Reported(e, query, GroupTitle)
  {
    MatchedListAsList(e, query);
    Labels5(Pick(e, query, Name), Pick(e, query, Title), Pick(e, query, Description),
            Pick(e, query, Group), Pick(e, query, GroupTitle));
    PickLabels(e, query, Name);
    PickLabels(e, query, Title);
    PickLabels(e, query, Description);
    PickLabels(e, query, Group);
    PickLabels(e, query, GroupTitle);
  }

  lemma PickLabels(e: Endpoint, query: String, f: MatchField)
    ensures Labels(Pick(e, query, f)) == Reported(e, query, f)
  {
  }

  lemma Labels5(p1: seq<MatchField>, p2: seq<MatchField>, p3: seq<MatchField>,
                p4: seq<MatchField>, p5: seq<MatchField>)
    ensures Labels(p1 + p2 + p3 + p4 + p5)
            == Labels(p1) + Labels(p2) + Labels(p3) + Labels(p4) + Labels(p5)
  {
    LabelsAppend(p1 + p2 + p3 + p4, p5);
    LabelsAppend(p1 + p2 + p3, p4);
    LabelsAppend(p1 + p2, p3);
    LabelsAppend(p1, p2);
  }

  /** A field's test, with its texts evaluated. */
  lemma ReportedField(e: Endpoint, query: String, f: MatchField, value: String, searched: String)
    requires value == FieldText(e, f) && searched == SearchedText(e, f)
    ensures Reported(e, query, f) == if value != [] && Includes(ToLower(searched), ToLower(query)) then [Label(f)] else []
    ensures Contribution(e, query, f) == if value != [] && Includes(ToLower(searched), ToLower(query)) then Weight(f) else 0
  {
  }

  /** `getMatchedFields`: the names of the matched fields, pushed in order. */
  method GetMatchedFields(e: Endpoint, query: String) returns (matched: seq<String>)
    ensures matched == MatchedFields(e, query)
  {
    var queryLower := ToLower(query);
    ReportedField(e, query, Name, e.name, e.name);
    ReportedField(e, query, Title, e.title, e.title);
    ReportedField(e, query, Description, e.description, StripHtml(e.description));
    ReportedField(e, query, Group, e.group, e.group);
    ReportedField(e, query, GroupTitle, e.groupTitle, e.groupTitle);
    matched := [];
    var pushed := if e.name != [] && Includes(ToLower(e.name), queryLower) then ["name"] else [];
    matched := matched + pushed;
    assert matched == Reported(e, query, Name);
    pushed := if e.title != [] && Includes(ToLower(e.title), queryLower) then ["title"] else [];
    matched := matched + pushed;
    pushed := if e.description != [] && Includes(ToLower(StripHtml(e.description)), queryLower)
              then ["description"] else [];
    matched := matched + pushed;
    pushed := if e.group != [] && Includes(ToLower(e.group), queryLower) then ["group"] else [];
    matched := matched + pushed;
    pushed := if e.groupTitle != [] && Includes(ToLower(e.groupTitle), queryLower) then ["groupTitle"] else [];
    matched := matched + pushed;
    MatchedFieldsAsList(e, query);
  }

  // ---------------------------------------------------------------------
  // what the relevance and the matched fields promise
  // ---------------------------------------------------------------------

  lemma LabelInjective(f: MatchField, g: MatchField)
    ensures Label(f) == Label(g) ==> f == g
  {
  }

  /** A field is reported exactly when the query matches it. */
  lemma MatchedFieldsMembers(e: Endpoint, query: String, f: MatchField)
    ensures Label(f) in MatchedFields(e, query) <==> Matches(e, query, f)
  {
    var m := MatchedList(e, query);
    LabelsAt(m);
    MatchedAmongMembers(e, query, Fields);
    if Label(f) in Labels(m) {
      var i :| 0 <= i < |m| && Labels(m)[i] == Label(f);
      LabelInjective(m[i], f);
    }
    if Matches(e, query, f) {
      assert f in Fields;
      var i :| 0 <= i < |m| && m[i] == f;
      assert Labels(m)[i] == Label(f);
    }
  }

  /** No field is reported twice. */
  lemma MatchedFieldsDistinct(e: Endpoint, query: String)
    ensures Distinct(MatchedFields(e, query))
  {
    var m := MatchedList(e, query);
    LabelsAt(m);
    MatchedAmongDistinct(e, query, Fields);
    forall i, j | 0 <= i < j < |m| ensures Labels(m)[i] != Labels(m)[j] {
      LabelInjective(m[i], m[j]);
    }
  }

  /** Filtering a list of distinct fields keeps them distinct. */
  lemma {:induction false} MatchedAmongDistinct(e: Endpoint, query: String, fs: seq<MatchField>)
    requires Distinct(fs)
    ensures Distinct(MatchedAmong(e, query, fs))
    decreases |fs|
  {
    if fs != [] {
      MatchedAmongDistinct(e, query, fs[1..]);
      MatchedAmongMembers(e, query, fs[1..]);
      assert fs[0] !in fs[1..];
    }
  }

  /** The reported names are those of the matched fields, in the order the
      source tests the fields. */
  lemma MatchedFieldsOrdered(e: Endpoint, query: String)
    ensures var fs := MatchedList(e, query);
            && |MatchedFields(e, query)| == |fs|
            && (forall i :: 0 <= i < |fs| ==> MatchedFields(e, query)[i] == Label(fs[i]) && Matches(e, query, fs[i]))
            && IncreasingBy(fs, Rank)
  {
    var fs := MatchedList(e, query);
    LabelsAt(fs);
    MatchedAmongMembers(e, query, Fields);
    forall i | 0 <= i < |fs| ensures Matches(e, query, fs[i]) {
      assert fs[i] in fs;
    }
    FieldsRanked();
    MatchedAmongOrdered(e, query, Fields);
  }

  /** Each field's rank is its position in `Fields`. */
  lemma FieldsRanked()
    ensures IncreasingBy(Fields, Rank)
  {
    assert forall i :: 0 <= i < |Fields| ==> Rank(Fields[i]) == i;
  }

  /** The test `Matches`, as a function value. */
  function MatchesIn(e: Endpoint, query: String): MatchField -> bool {
    f => Matches(e, query, f)
  }

  /** Picking the matched fields is filtering by `Matches`. */
  lemma {:induction false} MatchedAmongIsFilter(e: Endpoint, query: String, fs: seq<MatchField>)
    ensures MatchedAmong(e, query, fs) == Filter(fs, MatchesIn(e, query))
    decreases |fs|
  {
    if fs != [] {
      MatchedAmongIsFilter(e, query, fs[1..]);
      assert MatchesIn(e, query)(fs[0]) == Matches(e, query, fs[0]);
    }
  }

  /** Picking fields out of a list ordered by rank keeps them ordered. */
  lemma MatchedAmongOrdered(e: Endpoint, query: String, fs: seq<MatchField>)
    requires IncreasingBy(fs, Rank)
    ensures IncreasingBy(MatchedAmong(e, query, fs), Rank)
  {
    MatchedAmongIsFilter(e, query, fs);
    FilterOrdered(fs, MatchesIn(e, query), Rank);
  }

  /** The score is at most 180: 100 for an exact name and every other
      field's weight. */
  lemma RelevanceBound(e: Endpoint, query: String)
    ensures RelevanceScore(e, query) <= 180
  {
    RelevanceAsSum(e, query);
  }

  /** An endpoint scores above zero exactly when some field matched, so the
      search keeps exactly the endpoints that report a matched field. */
  lemma RelevancePositiveIffMatched(e: Endpoint, query: String)
    ensures RelevanceScore(e, query) > 0 <==> MatchedFields(e, query) != []
  {
    RelevanceAsSum(e, query);
    if ExactName(e, query) {
      IncludesSelf(ToLower(e.name));
    }
    LabelsAt(MatchedList(e, query));
    MatchedAmongMembers(e, query, Fields);
    if MatchedFields(e, query) != [] {
      var f := MatchedList(e, query)[0];
      assert f in MatchedList(e, query);
    }
    if RelevanceScore(e, query) > 0 {
      var f := if Contribution(e, query, Name) > 0 || ExactName(e, query) then Name
               else if Contribution(e, query, Title) > 0 then Title
               else if Contribution(e, query, Description) > 0 then Description
               else if Contribution(e, query, Group) > 0 then Group
               else GroupTitle;
      assert Matches(e, query, f);
      assert f in MatchedList(e, query);
      assert Labels(MatchedList(e, query))[0] == Label(MatchedList(e, query)[0]);
    }
  }

  /** A name equal to the query, whatever its case, scores at least 100;
      a name that only contains it adds 50. */
  lemma RelevanceNameTiers(e: Endpoint, query: String)
    ensures ExactName(e, query) ==> RelevanceScore(e, query) >= 100
    ensures Matches(e, query, Name) ==> RelevanceScore(e, query) >= 50
  {
    RelevanceAsSum(e, query);
    if ExactName(e, query) {
      IncludesSelf(ToLower(e.name));
    }
  }

  /** The empty query is included in every text, so it matches every
      non-empty field. */
  lemma EmptyQueryMatchesEverything(e: Endpoint, f: MatchField)
    requires FieldText(e, f) != []
    ensures Matches(e, [], f)
  {
    IncludesEmpty(ToLower(SearchedText(e, f)));
  }

  // ---------------------------------------------------------------------
  // findEndpoint
  // ---------------------------------------------------------------------

  /** The four tests `findEndpoint` tries in turn: the exact name, the name
      ignoring case, the exact URL, the URL ignoring case. */
  predicate StageMatches(e: Endpoint, identifier: String, stage: nat) {
    if stage == 0 then e.name == identifier
    else if stage == 1 then ToLower(e.name) == ToLower(identifier)
    else if stage == 2 then e.url == identifier
    else if stage == 3 then ToLower(e.url) == ToLower(identifier)
    else false
  }

  /** The stages from `stage` on, each with `Array.prototype.find`. */
  function FindFrom(endpoints: seq<Endpoint>, identifier: String, stage: nat): (r: Option<Endpoint>)
    ensures r.None? <==> forall k, s: nat :: 0 <= k < |endpoints| && stage <= s ==> !StageMatches(endpoints[k], identifier, s)
    ensures r.Some? ==> exists s: nat, k :: stage <= s < 4 && 0 <= k < |endpoints| && r.value == endpoints[k] &&
                                       StageMatches(endpoints[k], identifier, s) &&
                                       (forall j :: 0 <= j < k ==> !StageMatches(endpoints[j], identifier, s)) &&
                                       (forall j, t: nat :: 0 <= j < |endpoints| && stage <= t < s ==> !StageMatches(endpoints[j], identifier, t))
    decreases 4 - stage
  {
    if stage >= 4 then None
    else match Find(endpoints, e => StageMatches(e, identifier, stage))
      case Some(e) => Some(e)
      case None => FindFrom(endpoints, identifier, stage + 1)
  }

  /** `findEndpoint`: the first endpoint the earliest successful test finds. */
  function FindEndpoint(endpoints: seq<Endpoint>, identifier: String): Option<Endpoint> {
    FindFrom(endpoints, identifier, 0)
  }

  /** The earliest test that any endpoint passes decides, and within it the
      first endpoint in the documentation wins; nothing is found only when
      no endpoint passes any test. */
  lemma FindEndpointPriority(endpoints: seq<Endpoint>, identifier: String)
    ensures var r := FindEndpoint(endpoints, identifier);
            && (r.None? <==> forall k, s: nat :: 0 <= k < |endpoints| && s < 4 ==> !StageMatches(endpoints[k], identifier, s))
            && (r.Some? ==> exists s: nat, k :: s < 4 && 0 <= k < |endpoints| && r.value == endpoints[k] &&
                                           StageMatches(endpoints[k], identifier, s) &&
                                           (forall j :: 0 <= j < k ==> !StageMatches(endpoints[j], identifier, s)) &&
                                           (forall j, t: nat :: 0 <= j < |endpoints| && t < s ==> !StageMatches(endpoints[j], identifier, t)))
  {
  }

  /** An exact name match is always found, and it is the first endpoint with
      that name. */
  lemma FindEndpointExactName(endpoints: seq<Endpoint>, identifier: String, k: nat)
    requires k < |endpoints| && endpoints[k].name == identifier
    requires forall j :: 0 <= j < k ==> endpoints[j].name != identifier
    ensures FindEndpoint(endpoints, identifier) == Some(endpoints[k])
  {
    var p := e => StageMatches(e, identifier, 0);
    assert p(endpoints[k]);
    var i := FindIndex(endpoints, p);
    assert i == Some(k);
  }

  // ---------------------------------------------------------------------
  // levenshteinDistance
  // ---------------------------------------------------------------------

  function Min3(a: nat, b: nat, c: nat): nat {
    if a <= b && a <= c then a else if b <= c then b else c
  }

  /** The entry `matrix[i][j]` of the source's table for rows `s` and columns
      `t`: the edit distance between `s[..i]` and `t[..j]`. */
  function Lev(s: String, t: String, i: nat, j: nat): nat
    requires i <= |s| && j <= |t|
    decreases i + j
  {
    if i == 0 then j
    else if j == 0 then i
    else if s[i - 1] == t[j - 1] then Lev(s, t, i - 1, j - 1)
    else 1 + Min3(Lev(s, t, i - 1, j - 1), Lev(s, t, i, j - 1), Lev(s, t, i - 1, j))
  }

  /** The edit distance between `s` and `t`. */
  function EditDistance(s: String, t: String): nat {
    Lev(s, t, |s|, |t|)
  }

  /** `levenshteinDistance(str1, str2)`: the table with a row per prefix of
      `str2` and a column per prefix of `str1`, filled row by row. */
  method LevenshteinDistance(str1: String, str2: String) returns (d: nat)
    ensures d == EditDistance(str2, str1)
  {
    var rows, cols := |str2|, |str1|;
    var matrix := new nat[rows + 1, cols + 1];
    for i := 0 to rows + 1
      invariant forall i' :: 0 <= i' < i ==> matrix[i', 0] == i'
    {
      matrix[i, 0] := i;
    }
    for j := 0 to cols + 1
      invariant forall i' :: 0 <= i' <= rows ==> matrix[i', 0] == i'
      invariant forall j' :: 0 <= j' < j ==> matrix[0, j'] == j'
    {
      matrix[0, j] := j;
    }
    for i := 1 to rows + 1
      invariant forall i', j' {:trigger matrix[i', j']} :: 0 <= i' < i && 0 <= j' <= cols ==> matrix[i', j'] == Lev(str2, str1, i', j')
      invariant forall i' :: i <= i' <= rows ==> matrix[i', 0] == i'
    {
      for j := 1 to cols + 1
        invariant forall i', j' {:trigger matrix[i', j']} :: 0 <= i' < i && 0 <= j' <= cols ==> matrix[i', j'] == Lev(str2, str1, i', j')
        invariant forall i' :: i <= i' <= rows ==> matrix[i', 0] == i'
        invariant forall j' {:trigger matrix[i, j']} :: 0 <= j' < j ==> matrix[i, j'] == Lev(str2, str1, i, j')
      {
        var v: nat;
        if str2[i - 1] == str1[j - 1] {
          v := matrix[i - 1, j - 1];
        } else {
          v := Min3(matrix[i - 1, j - 1] + 1, matrix[i, j - 1] + 1, matrix[i - 1, j] + 1);
        }
        LevStep(str2, str1, i, j);
        matrix[i, j] := v;
      }
    }
    d := matrix[rows, cols];
  }

  /** One entry of the table from its three neighbours, as the source fills it. */
  lemma LevStep(s: String, t: String, i: nat, j: nat)
    requires 0 < i <= |s| && 0 < j <= |t|
    ensures Lev(s, t, i, j)
            == if s[i - 1] == t[j - 1] then Lev(s, t, i - 1, j - 1)
               else Min3(Lev(s, t, i - 1, j - 1) + 1, Lev(s, t, i, j - 1) + 1, Lev(s, t, i - 1, j) + 1)
  {
  }

  lemma {:induction false} LevSymmetric(s: String, t: String, i: nat, j: nat)
    requires i <= |s| && j <= |t|
    ensures Lev(s, t, i, j) == Lev(t, s, j, i)
    decreases i + j
  {
    if i > 0 && j > 0 {
      LevSymmetric(s, t, i - 1, j - 1);
      if s[i - 1] != t[j - 1] {
        LevSymmetric(s, t, i, j - 1);
        LevSymmetric(s, t, i - 1, j);
        var a, b, c := Lev(s, t, i - 1, j - 1), Lev(s, t, i, j - 1), Lev(s, t, i - 1, j);
        assert Lev(s, t, i, j) == 1 + Min3(a, b, c);
        assert Lev(t, s, j, i) == 1 + Min3(a, c, b);
      }
    }
  }

  lemma {:induction false} LevBounds(s: String, t: String, i: nat, j: nat)
    requires i <= |s| && j <= |t|
    ensures Lev(s, t, i, j) <= (if i < j then j else i)
    ensures Lev(s, t, i, j) >= (if i < j then j - i else i - j)
    decreases i + j
  {
    if i > 0 && j > 0 {
      LevBounds(s, t, i - 1, j - 1);
      LevBounds(s, t, i, j - 1);
      LevBounds(s, t, i - 1, j);
    }
  }

  /** The distance is zero exactly between equal prefixes. */
  lemma {:induction false} LevZero(s: String, t: String, i: nat, j: nat)
    requires i <= |s| && j <= |t|
    ensures Lev(s, t, i, j) == 0 <==> i == j && s[..i] == t[..j]
    decreases i + j
  {
    if i > 0 && j > 0 {
      LevZero(s, t, i - 1, j - 1);
      assert s[..i] == s[..i - 1] + [s[i - 1]];
      assert t[..j] == t[..j - 1] + [t[j - 1]];
      if i == j && s[..i] == t[..j] {
        assert s[i - 1] == s[..i][i - 1];
        assert t[j - 1] == t[..j][j - 1];
        assert s[..i - 1] == s[..i][..i - 1];
        assert t[..j - 1] == t[..j][..j - 1];
      }
    }
  }

  /** The edit distance is symmetric, at most the longer length, at least
      the difference in length, and zero exactly for equal strings. */
  lemma EditDistanceProperties(s: String, t: String)
    ensures EditDistance(s, t) == EditDistance(t, s)
    ensures EditDistance(s, t) <= (if |s| < |t| then |t| else |s|)
    ensures EditDistance(s, t) >= (if |s| < |t| then |t| - |s| else |s| - |t|)
    ensures EditDistance(s, t) == 0 <==> s == t
  {
    LevSymmetric(s, t, |s|, |t|);
    LevBounds(s, t, |s|, |t|);
    LevZero(s, t, |s|, |t|);
    assert s[..|s|] == s && t[..|t|] == t;
  }

  // ---------------------------------------------------------------------
  // calculateSimilarity
  // ---------------------------------------------------------------------

  /** `calculateSimilarity`: one minus the edit distance over the longer
      length (1 when both strings are empty). */
  function Similarity(str1: String, str2: String): real {
    var longer := if |str1| > |str2| then str1 else str2;
    var shorter := if |str1| > |str2| then str2 else str1;
    if |longer| == 0 then 1.0
    else (|longer| - EditDistance(shorter, longer)) as real / |longer| as real
  }

  method CalculateSimilarity(str1: String, str2: String) returns (r: real)
    ensures r == Similarity(str1, str2)
  {
    var longer := if |str1| > |str2| then str1 else str2;
    var shorter := if |str1| > |str2| then str2 else str1;
    if |longer| == 0 {
      return 1.0;
    }
    var editDistance := LevenshteinDistance(longer, shorter);
    r := (|longer| - editDistance) as real / |longer| as real;
  }

  /** The similarity lies between 0 and 1, is 1 exactly for equal strings and
      does not depend on the order of its arguments. */
  lemma SimilarityProperties(str1: String, str2: String)
    ensures 0.0 <= Similarity(str1, str2) <= 1.0
    ensures Similarity(str1, str2) == 1.0 <==> str1 == str2
    ensures Similarity(str1, str2) == Similarity(str2, str1)
  {
    EditDistanceProperties(str1, str2);
    var n := if |str1| > |str2| then |str1| else |str2|;
    if n > 0 {
      var d := EditDistance(str1, str2);
      assert Similarity(str1, str2) == (n - d) as real / n as real;
      assert Similarity(str2, str1) == (n - d) as real / n as real;
      Fraction(n - d, n);
    }
  }

  /** A part of a positive whole, as a fraction: between 0 and 1, and 1
      exactly for the whole. */
  lemma Fraction(a: nat, n: nat)
    requires 0 < n && a <= n
    ensures 0.0 <= a as real / n as real <= 1.0
    ensures a as real / n as real == 1.0 <==> a == n
  {
    var q := a as real / n as real;
    var m := n as real;
    assert q * m == a as real;
    if a == n {
      assert (q - 1.0) * m == 0.0;
    }
  }

  // ---------------------------------------------------------------------
  // findSimilarEndpoints
  // ---------------------------------------------------------------------

  datatype Candidate = Candidate(name: String, score: real)

  function CandidateScore(c: Candidate): real {
    c.score
  }

  /** One of the two lower-cased names includes the other. */
  predicate Related(a: String, b: String) {
    Includes(a, b) || Includes(b, a)
  }

  /** The test the loop applies to an endpoint, as a function value. */
  function RelatedTo(nameLower: String): Endpoint -> bool {
    (e: Endpoint) => Related(ToLower(e.name), nameLower)
  }

  /** The candidate the loop pushes for an endpoint, as a function value. */
  function ToCandidate(nameLower: String): Endpoint -> Candidate {
    (e: Endpoint) => Candidate(e.name, Similarity(nameLower, ToLower(e.name)))
  }

  /** The `similar` list the loop builds, endpoint by endpoint. */
  function Candidates(endpoints: seq<Endpoint>, nameLower: String): seq<Candidate> {
    MapIf(endpoints, RelatedTo(nameLower), ToCandidate(nameLower))
  }

  function Names(cs: seq<Candidate>): (r: seq<String>)
    ensures |r| == |cs| && forall i :: 0 <= i < |cs| ==> r[i] == cs[i].name
  {
    if cs == [] then [] else [cs[0].name] + Names(cs[1..])
  }

  /** The candidates as the source ranks them: by descending similarity,
      ties in documentation order, cut to `limit`. */
  function RankedCandidates(endpoints: seq<Endpoint>, name: String, limit: int): seq<Candidate> {
    Take(SortByScoreDesc(Candidates(endpoints, ToLower(name)), CandidateScore), limit)
  }

  /** The names `findSimilarEndpoints` returns. */
  function SimilarNames(endpoints: seq<Endpoint>, name: String, limit: int): seq<String> {
    Names(RankedCandidates(endpoints, name, limit))
  }

  /** `findSimilarEndpoints(endpoints, name, limit = 5)`. */
  method FindSimilarEndpoints(endpoints: seq<Endpoint>, name: String, limit: Option<int>) returns (r: seq<String>)
    ensures r == SimilarNames(endpoints, name, limit.GetOr(5))
  {
    var nameLower := ToLower(name);
    var similar: seq<Candidate> := [];
    for i := 0 to |endpoints|
      invariant similar == Candidates(endpoints[..i], nameLower)
    {
      var endpointNameLower := ToLower(endpoints[i].name);
      if Includes(endpointNameLower, nameLower) || Includes(nameLower, endpointNameLower) {
        var score := CalculateSimilarity(nameLower, endpointNameLower);
        similar := similar + [Candidate(endpoints[i].name, score)];
      }
      assert endpoints[..i + 1][..i] == endpoints[..i];
    }
    assert endpoints[..|endpoints|] == endpoints;
    r := Names(Take(SortByScoreDesc(similar, CandidateScore), limit.GetOr(5)));
  }

  /** Every candidate comes from an endpoint whose lower-cased name is related
      to the lower-cased query, and carries that endpoint's name and
      similarity; every such endpoint gives one. */
  lemma CandidatesMembers(endpoints: seq<Endpoint>, nameLower: String, c: Candidate)
    ensures c in Candidates(endpoints, nameLower) <==>
            exists k :: 0 <= k < |endpoints| && Related(ToLower(endpoints[k].name), nameLower) &&
                        c == Candidate(endpoints[k].name, Similarity(nameLower, ToLower(endpoints[k].name)))
  {
    MapIfMembers(endpoints, RelatedTo(nameLower), ToCandidate(nameLower), c);
  }

  /** Suggestions are names of related endpoints, at most `limit` of them
      (all of them when the limit allows), ranked by descending similarity. */
  lemma SimilarNamesMeaning(endpoints: seq<Endpoint>, name: String, limit: int)
    ensures var ranked := RankedCandidates(endpoints, name, limit);
            var all := Candidates(endpoints, ToLower(name));
            && SimilarNames(endpoints, name, limit) == Names(ranked)
            && |ranked| == SliceEnd(|all|, limit)
            && (limit >= 0 ==> |ranked| <= limit)
            && SortedDesc(ranked, CandidateScore)
            && (forall i :: 0 <= i < |ranked| ==> ranked[i] in all)
            && (limit >= |all| ==> multiset(ranked) == multiset(all))
  {
    TakeSorted(Candidates(endpoints, ToLower(name)), CandidateScore, limit);
  }

  /** The cut `slice(0, limit)` makes of a sort by descending score: as long
      as `slice` says, ordered, drawn from the input, and all of it when the
      limit allows. */
  lemma TakeSorted<T>(all: seq<T>, score: T -> real, limit: int)
    ensures var ranked := Take(SortByScoreDesc(all, score), limit);
            && |ranked| == SliceEnd(|all|, limit)
            && (limit >= 0 ==> |ranked| <= limit)
            && SortedDesc(ranked, score)
            && (forall i :: 0 <= i < |ranked| ==> ranked[i] in all)
            && (limit >= |all| ==> multiset(ranked) == multiset(all))
  {
    var sorted := SortByScoreDesc(all, score);
    SortByScoreDescSorted(all, score);
    SortByScoreDescPermutes(all, score);
    var ranked := Take(sorted, limit);
    forall i | 0 <= i < |ranked| ensures ranked[i] in all {
      assert ranked[i] == sorted[i];
      assert sorted[i] in multiset(sorted);
    }
    if limit >= |all| {
      assert ranked == sorted;
    }
  }

  /** The suggestions are the best candidates: none is kept twice, no
      candidate left out is more similar than a kept one, and among equally
      similar candidates the kept ones are the first in documentation
      order. */
  lemma SimilarNamesAreBest(endpoints: seq<Endpoint>, name: String, limit: int)
    ensures var ranked := RankedCandidates(endpoints, name, limit);
            var all := Candidates(endpoints, ToLower(name));
            && multiset(ranked) <= multiset(all)
            && (forall c, i :: c in multiset(all) - multiset(ranked) && 0 <= i < |ranked| ==>
                                 CandidateScore(c) <= CandidateScore(ranked[i]))
            && (forall k :: WithScore(ranked, CandidateScore, k) <= WithScore(all, CandidateScore, k))
  {
    var all := Candidates(endpoints, ToLower(name));
    TakeSortedIsTop(all, CandidateScore, limit);
  }

  /** `SortedPrefixIsTop` for the cut `slice(0, limit)` makes. */
  lemma TakeSortedIsTop<T>(all: seq<T>, score: T -> real, limit: int)
    ensures var ranked := Take(SortByScoreDesc(all, score), limit);
            && multiset(ranked) <= multiset(all)
            && (forall c, i :: c in multiset(all) - multiset(ranked) && 0 <= i < |ranked| ==> score(c) <= score(ranked[i]))
            && (forall k :: WithScore(ranked, score, k) <= WithScore(all, score, k))
  {
    var m := SliceEnd(|all|, limit);
    SortedPrefixIsTop(all, score, m, 0.0);
    forall k
      ensures WithScore(Take(SortByScoreDesc(all, score), limit), score, k) <= WithScore(all, score, k)
    {
      SortedPrefixIsTop(all, score, m, k);
    }
  }

  /** Every suggestion is the name of an endpoint related to the query. */
  lemma SimilarNamesRelated(endpoints: seq<Endpoint>, name: String, limit: int, i: nat)
    requires i < |SimilarNames(endpoints, name, limit)|
    ensures exists k :: 0 <= k < |endpoints| && endpoints[k].name == SimilarNames(endpoints, name, limit)[i]
                        && Related(ToLower(endpoints[k].name), ToLower(name))
  {
    SimilarNamesMeaning(endpoints, name, limit);
    var ranked := RankedCandidates(endpoints, name, limit);
    CandidatesMembers(endpoints, ToLower(name), ranked[i]);
  }
}
