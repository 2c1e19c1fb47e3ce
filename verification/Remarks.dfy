/** The remarks line: six fields joined by the incident tracker, taken apart by the WebMap. */
module Remarks {
  import opened Search
  import opened Entities

  const SEP := " | "

  function Join(fields: seq<string>): string
    requires fields != []
  {
    if |fields| == 1 then fields[0] else fields[0] + SEP + Join(fields[1..])
  }

  /** JavaScript's s.split(" | "). */
  function Split(s: string): (parts: seq<string>)
    ensures parts != []
    decreases |s|
  {
    var i := Find(s, SEP);
    if i < 0 then [s] else [s[..i]] + Split(s[i + |SEP|..])
  }

  // ---- When splitting undoes joining ----

  predicate HoldsSep(f: string) {
    Find(f, SEP) >= 0
  }

  predicate EndsInBar(f: string) {
    |f| >= 2 && f[|f| - 2] == ' ' && f[|f| - 1] == '|'
  }

  /** No field holds the separator, and none but the last ends in the separator's first two
      characters: those would meet the separator that follows. */
  predicate Splittable(fields: seq<string>)
    requires fields != []
  {
    !HoldsSep(fields[0]) && (|fields| == 1 || (!EndsInBar(fields[0]) && Splittable(fields[1..])))
  }

  // Some field came back changed.
  ghost predicate Differs(parts: seq<string>, fields: seq<string>) {
    exists i :: 0 <= i < |fields| && i < |parts| && parts[i] != fields[i]
  }

  predicate SepAt(s: string, j: int) {
    0 <= j && j + 3 <= |s| && s[j] == ' ' && s[j + 1] == '|' && s[j + 2] == ' '
  }

  lemma {:induction false} SepOccurs(s: string, j: int)
    ensures OccursAt(s, SEP, j) <==> SepAt(s, j)
  {
  }

  lemma {:induction false} SepBeforeEnd(f: string, rest: string, j: nat)
    requires j < |f|
    ensures SepAt(f + SEP + rest, j) <==> SepAt(f, j) || (EndsInBar(f) && j == |f| - 2)
  {
  }

  /** A field is cut short when the first separator in what follows begins inside it. */
  lemma {:induction false} FirstSep(f: string, rest: string)
    ensures var i := Find(f + SEP + rest, SEP);
            0 <= i <= |f| && (i == |f| <==> !HoldsSep(f) && !EndsInBar(f))
  {
    var s := f + SEP + rest;
    SepOccurs(s, |f|);
    forall j | 0 <= j < |f|
      ensures OccursAt(s, SEP, j) <==> OccursAt(f, SEP, j) || (EndsInBar(f) && j == |f| - 2)
    {
      SepBeforeEnd(f, rest, j);
      SepOccurs(s, j);
      SepOccurs(f, j);
    }
    if HoldsSep(f) {
      assert OccursAt(s, SEP, Find(f, SEP));
    }
    if EndsInBar(f) {
      assert OccursAt(s, SEP, |f| - 2);
    }
  }

  lemma {:induction false} SplitPrefix(f: string, rest: string)
    requires !HoldsSep(f) && !EndsInBar(f)
    ensures Split(f + SEP + rest) == [f] + Split(rest)
  {
    FirstSep(f, rest);
    var s := f + SEP + rest;
    assert s[..|f|] == f && s[|f| + |SEP|..] == rest;
  }

  lemma {:induction false} SplitCutsShort(f: string, rest: string)
    requires HoldsSep(f) || EndsInBar(f)
    ensures |Split(f + SEP + rest)[0]| < |f|
  {
    FirstSep(f, rest);
  }

  /** Splitting the joined line gives the fields back exactly when they are splittable;
      otherwise some field comes back changed. */
  lemma {:induction false} SplitJoin(fields: seq<string>)
    requires fields != []
    ensures Splittable(fields) ==> Split(Join(fields)) == fields
    ensures !Splittable(fields) ==> Differs(Split(Join(fields)), fields)
    decreases |fields|
  {
    var f := fields[0];
    if |fields| == 1 {
      assert HoldsSep(f) ==> Split(f)[0] != f;
    } else if HoldsSep(f) || EndsInBar(f) {
      SplitCutsShort(f, Join(fields[1..]));
    } else {
      var later := fields[1..];
      var parts := Split(Join(later));
      SplitJoin(later);
      SplitPrefix(f, Join(later));
      assert fields == [f] + later;
      if !Splittable(later) {
        var i :| 0 <= i < |later| && i < |parts| && parts[i] != later[i];
        assert ([f] + parts)[i + 1] != fields[i + 1];
      }
    }
  }

  lemma {:induction false} NoSepBefore(s: string, i: nat)
    requires i == Find(s, SEP)
    ensures !HoldsSep(s[..i])
  {
    if HoldsSep(s[..i]) {
      var j := Find(s[..i], SEP);
      assert s == s[..i] + s[i..];
      OccursInPrefix(s[..i], s[i..], SEP, j);
    }
  }

  /** Joining what splitting yields gives the text back, and no part holds the separator. */
  lemma {:induction false} JoinSplit(s: string)
    ensures Join(Split(s)) == s && forall part :: part in Split(s) ==> !HoldsSep(part)
    decreases |s|
  {
    var i := Find(s, SEP);
    if i < 0 {
    } else {
      var rest := s[i + |SEP|..];
      JoinSplit(rest);
      assert s[i..i + |SEP|] == SEP;
      assert s == s[..i] + SEP + rest;
      assert ([s[..i]] + Split(rest))[1..] == Split(rest);
      NoSepBefore(s, i);
    }
  }

  // ---- The tracker's sanitiser ----

  function IndexOf(s: string, c: char): (r: int)
    ensures -1 <= r < |s|
    ensures r < 0 <==> c !in s
    ensures r >= 0 ==> s[r] == c && c !in s[..r]
  {
    if s == "" then -1
    else if s[0] == c then 0
    else
      var r := IndexOf(s[1..], c);
      if r < 0 then -1 else r + 1
  }

  /** re.sub(r"<[^>]+>", "", s): one pass of leftmost, non-overlapping removals.  A tag begins
      where the next > is neither absent nor immediate. */
  function StripTags(s: string): string
    decreases |s|
  {
    if s == "" then ""
    else
      var j := IndexOf(s, '>');
      if s[0] == '<' && j >= 2 then StripTags(s[j + 1..])
      else [s[0]] + StripTags(s[1..])
  }

  function Sanitize(s: string, max: nat): string {
    var clean := StripTags(s);
    if |clean| <= max then clean else clean[..max]
  }

  /** s holds no <, then at least one character other than >, then >. */
  predicate NoTag(s: string) {
    forall i, j :: 0 <= i && i + 2 <= j < |s| && s[i] == '<' && s[j] == '>' ==> '>' in s[i + 1..j]
  }

  lemma {:induction false} NoTagCons(c: char, s: string)
    requires NoTag(s) && (c == '<' ==> '>' !in s || s[0] == '>')
    ensures NoTag([c] + s)
  {
    var t := [c] + s;
    forall i, j | 0 <= i && i + 2 <= j < |t| && t[i] == '<' && t[j] == '>'
      ensures '>' in t[i + 1..j]
    {
      if i > 0 {
        assert t[i + 1..j] == s[i..j - 1];
      } else {
        assert s[j - 1] in s;
        assert t[1..j][0] == '>';
      }
    }
  }

  lemma {:induction false} NoTagInRest(s: string)
    requires NoTag(s) && s != ""
    ensures NoTag(s[1..])
  {
    forall i, k | 0 <= i && i + 2 <= k < |s[1..]| && s[1..][i] == '<' && s[1..][k] == '>'
      ensures '>' in s[1..][i + 1..k]
    {
      assert s[i + 1] == '<' && s[k + 1] == '>';
      assert s[1..][i + 1..k] == s[i + 2..k + 1];
    }
  }

  lemma {:induction false} MatchIsTag(s: string)
    requires s != "" && s[0] == '<' && IndexOf(s, '>') >= 2
    ensures !NoTag(s)
  {
  }

  lemma {:induction false} NoTagUnchanged(s: string)
    requires NoTag(s)
    ensures StripTags(s) == s
    decreases |s|
  {
    if s == "" {
    } else {
      if s[0] == '<' && IndexOf(s, '>') >= 2 {
        MatchIsTag(s);
      }
      NoTagInRest(s);
      NoTagUnchanged(s[1..]);
    }
  }

  lemma NoBracketNoTag(s: string)
    requires '>' !in s
    ensures NoTag(s)
  {
  }

  /** A < that begins no tag is kept, and what is kept behind it begins with > or holds none. */
  lemma {:induction false} KeptBracket(s: string)
    requires s != "" && s[0] == '<' && IndexOf(s, '>') < 2
    ensures var kept := StripTags(s[1..]); '>' !in kept || kept[0] == '>'
  {
    if IndexOf(s, '>') < 0 {
      assert '>' !in s[1..];
      NoBracketNoTag(s[1..]);
      NoTagUnchanged(s[1..]);
    } else {
      assert s[1..][0] == '>';
    }
  }

  /** One removal pass leaves no tag behind, even one assembled from what was kept. */
  lemma {:induction false} StripLeavesNoTag(s: string)
    ensures NoTag(StripTags(s))
    decreases |s|
  {
    if s == "" {
    } else if s[0] == '<' && IndexOf(s, '>') >= 2 {
      StripLeavesNoTag(s[IndexOf(s, '>') + 1..]);
    } else {
      StripLeavesNoTag(s[1..]);
      if s[0] == '<' {
        KeptBracket(s);
      }
      NoTagCons(s[0], StripTags(s[1..]));
    }
  }

  /** Text in front of the first < is kept; */
  lemma {:induction false} PlainTextStays(p: string, s: string)
    requires '<' !in p
    ensures StripTags(p + s) == p + StripTags(s)
    decreases |p|
  {
    if p == "" {
      assert p + s == s;
    } else {
      assert (p + s)[0] == p[0] && (p + s)[1..] == p[1..] + s;
      PlainTextStays(p[1..], s);
      assert [p[0]] + (p[1..] + StripTags(s)) == p + StripTags(s);
    }
  }

  lemma {:induction false} FirstIndex(x: string, s: string, c: char)
    requires c !in x
    ensures IndexOf(x + [c] + s, c) == |x|
  {
    if x == "" {
      assert (x + [c] + s)[0] == c;
    } else {
      assert (x + [c] + s)[0] == x[0] && (x + [c] + s)[1..] == x[1..] + [c] + s;
      FirstIndex(x[1..], s, c);
    }
  }

  /** a tag goes as far as its first >, and nothing behind it does; */
  lemma {:induction false} TagGoes(x: string, s: string)
    requires x != "" && '>' !in x
    ensures StripTags("<" + x + ">" + s) == StripTags(s)
  {
    var t := "<" + x + ">" + s;
    FirstIndex("<" + x, s, '>');
    assert t == ("<" + x) + ['>'] + s;
    assert t[|x| + 2..] == s;
  }

  /** and a < that begins no tag stays: no > comes behind it, or at once. */
  lemma {:induction false} LoneBracketStays(s: string)
    requires '>' !in s || s[0] == '>'
    ensures StripTags("<" + s) == "<" + StripTags(s)
  {
    var t := "<" + s;
    assert t[0] == '<' && t[1..] == s;
    if '>' in s {
      FirstIndex("<", s[1..], '>');
      assert t == "<" + ['>'] + s[1..];
    } else {
      assert '>' !in t;
    }
  }

  /** Nothing but tags is removed: a text is left alone exactly when it holds none. */
  lemma {:induction false} StripIsIdentityIffNoTag(s: string)
    ensures StripTags(s) == s <==> NoTag(s)
    decreases |s|
  {
    StripLeavesNoTag(s);
    if NoTag(s) {
      NoTagUnchanged(s);
    }
  }

  lemma SliceOfPrefix<T>(s: seq<T>, max: nat, i: nat, j: nat)
    requires i <= j <= max <= |s|
    ensures s[..max][i..j] == s[i..j]
  {
  }

  lemma PrefixHoldsNoTag(s: string, max: nat)
    requires NoTag(s) && max <= |s|
    ensures NoTag(s[..max])
  {
    forall i, j | 0 <= i && i + 2 <= j < max && s[..max][i] == '<' && s[..max][j] == '>'
      ensures '>' in s[..max][i + 1..j]
    {
      assert s[i] == '<' && s[j] == '>';
      SliceOfPrefix(s, max, i + 1, j);
    }
  }

  /** Truncation cannot complete a tag. */
  lemma {:induction false} SanitizeLeavesNoTag(s: string, max: nat)
    ensures NoTag(Sanitize(s, max)) && |Sanitize(s, max)| <= max
    ensures Sanitize(s, max) <= StripTags(s) && (|StripTags(s)| <= max ==> Sanitize(s, max) == StripTags(s))
    ensures |StripTags(s)| > max ==> |Sanitize(s, max)| == max
  {
    StripLeavesNoTag(s);
    if |StripTags(s)| > max {
      PrefixHoldsNoTag(StripTags(s), max);
    }
  }

  // ---- Build and parse ----

  datatype Incident = Incident(summary: string, location: string, source: string,
                               severity: string, url: string, published: string)

  /** The six fields of the remarks line, published time last. */
  function Fields(inc: Incident): seq<string> {
    [Sanitize(inc.summary, 200), Sanitize(inc.location, 100), Sanitize(inc.source, 50),
     Sanitize(inc.severity, 20), Sanitize(inc.url, 500), inc.published]
  }

  datatype Parsed = Parsed(summary: string, location: string, source: string, severity: string,
                           url: string, published: string, comment: string, raw: string)

  function Part(parts: seq<string>, i: nat): string {
    if i < |parts| then parts[i] else ""
  }

  /** `tagged` says that the element names incident-tracker as its source; `isDate` is what
      Date.parse accepts. */
  function ParseRemarks(raw: string, tagged: bool, isDate: string -> bool): Parsed {
    var text := UnescapeXml(raw);
    var parts := Split(text);
    if tagged || (|parts| >= 6 && isDate(parts[5]))
    then Parsed(Part(parts, 0), Part(parts, 1), Part(parts, 2), Part(parts, 3),
                Part(parts, 4), Part(parts, 5), "", text)
    else Parsed("", "", "", "", "", "", text, text)
  }

  function SixOf(p: Parsed): seq<string> {
    [p.summary, p.location, p.source, p.severity, p.url, p.published]
  }

  lemma {:induction false} TaggedParse(raw: string, isDate: string -> bool, i: nat)
    requires i < 6
    ensures SixOf(ParseRemarks(raw, true, isDate))[i] == Part(Split(UnescapeXml(raw)), i)
  {
  }

  /** Any six fields, written by the serialiser and parsed by the WebMap, come back as they
      were exactly when they are splittable. */
  lemma {:induction false} RemarksRoundTrip(fields: seq<string>, isDate: string -> bool)
    requires |fields| == 6
    ensures SixOf(ParseRemarks(XmlText(Join(fields)), true, isDate)) == fields <==> Splittable(fields)
  {
    var raw := XmlText(Join(fields));
    var six := SixOf(ParseRemarks(raw, true, isDate));
    var parts := Split(Join(fields));
    UnescapeXmlText(Join(fields));
    SplitJoin(fields);
    if Splittable(fields) {
      forall i | 0 <= i < 6
        ensures six[i] == fields[i]
      {
        TaggedParse(raw, isDate, i);
      }
    } else {
      var i :| 0 <= i < |fields| && i < |parts| && parts[i] != fields[i];
      TaggedParse(raw, isDate, i);
      assert six[i] != fields[i];
    }
  }

  /** Remarks that name no source are taken for the tracker's when they have six parts and the
      sixth is a date; otherwise all of the text is a comment. */
  lemma {:induction false} UntaggedParse(raw: string, isDate: string -> bool)
    ensures var text, p := UnescapeXml(raw), ParseRemarks(raw, false, isDate);
            && p.raw == text
            && (|Split(text)| >= 6 && isDate(Split(text)[5]) ==>
                 p.comment == "" && forall i :: 0 <= i < 6 ==> SixOf(p)[i] == Split(text)[i])
            && (|Split(text)| < 6 || !isDate(Split(text)[5]) ==>
                 p.comment == text && forall i :: 0 <= i < 6 ==> SixOf(p)[i] == "")
    ensures var p := ParseRemarks(raw, true, isDate); p.raw == UnescapeXml(raw) && p.comment == ""
  {
  }

  predicate Clean(f: string, max: nat) {
    NoTag(f) && |f| <= max
  }

  lemma {:induction false} SanitizeCleans(s: string, max: nat)
    ensures Clean(Sanitize(s, max), max)
  {
    SanitizeLeavesNoTag(s, max);
  }

  /** No field is longer than its limit, and none but the time holds a tag. */
  lemma {:induction false} FieldLimits(inc: Incident)
    ensures var f := Fields(inc);
            && |f| == 6 && Clean(f[0], 200) && Clean(f[1], 100) && Clean(f[2], 50) && Clean(f[3], 20)
            && Clean(f[4], 500) && f[5] == inc.published
  {
    SanitizeCleans(inc.summary, 200);
    SanitizeCleans(inc.location, 100);
    SanitizeCleans(inc.source, 50);
    SanitizeCleans(inc.severity, 20);
    SanitizeCleans(inc.url, 500);
  }

  lemma {:induction false} TidyStays(s: string, max: nat)
    requires Clean(s, max)
    ensures Sanitize(s, max) == s
  {
    NoTagUnchanged(s);
  }

  predicate Tidy(f: string, max: nat) {
    Clean(f, max) && '|' !in f
  }

  lemma {:induction false} TroubleHasBar(f: string)
    requires HoldsSep(f) || EndsInBar(f)
    ensures '|' in f
  {
    if HoldsSep(f) {
      SepOccurs(f, Find(f, SEP));
      assert f[Find(f, SEP) + 1] in f;
    }
  }

  /** In particular fields without a bar always survive, empty or padded as they may be. */
  lemma {:induction false} BarFreeSplittable(fields: seq<string>)
    requires fields != [] && forall f :: f in fields ==> '|' !in f
    ensures Splittable(fields)
    decreases |fields|
  {
    if HoldsSep(fields[0]) || EndsInBar(fields[0]) {
      TroubleHasBar(fields[0]);
    }
    if |fields| == 1 {
    } else {
      BarFreeSplittable(fields[1..]);
    }
  }

  /** An incident whose fields hold no tag and no bar and are not too long arrives as it is. */
  lemma {:induction false} IncidentArrives(inc: Incident, isDate: string -> bool)
    requires Tidy(inc.summary, 200) && Tidy(inc.location, 100) && Tidy(inc.source, 50)
    requires Tidy(inc.severity, 20) && Tidy(inc.url, 500) && '|' !in inc.published
    ensures var p := ParseRemarks(XmlText(Join(Fields(inc))), true, isDate);
            && p.summary == inc.summary && p.location == inc.location && p.source == inc.source
            && p.severity == inc.severity && p.url == inc.url && p.published == inc.published
  {
    TidyStays(inc.summary, 200);
    TidyStays(inc.location, 100);
    TidyStays(inc.source, 50);
    TidyStays(inc.severity, 20);
    TidyStays(inc.url, 500);
    var fields := [inc.summary, inc.location, inc.source, inc.severity, inc.url, inc.published];
    assert Fields(inc) == fields;
    BarFreeSplittable(fields);
    RemarksRoundTrip(fields, isDate);
    var six := SixOf(ParseRemarks(XmlText(Join(fields)), true, isDate));
    assert six[0] == fields[0] && six[1] == fields[1] && six[2] == fields[2];
    assert six[3] == fields[3] && six[4] == fields[4] && six[5] == fields[5];
  }

  lemma {:induction false} CleanStays(s: string, max: nat)
    requires '>' !in s && |s| <= max
    ensures Sanitize(s, max) == s
  {
    NoBracketNoTag(s);
    NoTagUnchanged(s);
  }

  lemma {:induction false} BarFreePart(f: string)
    requires '|' !in f
    ensures !HoldsSep(f) && !EndsInBar(f)
  {
    if HoldsSep(f) || EndsInBar(f) {
      TroubleHasBar(f);
    }
  }

  lemma {:induction false} SplitTwice(a: string, b: string, rest: string)
    requires '|' !in a && '|' !in b
    ensures |Split(a + SEP + b + SEP + rest)| >= 2
    ensures Split(a + SEP + b + SEP + rest)[0] == a && Split(a + SEP + b + SEP + rest)[1] == b
  {
    BarFreePart(a);
    BarFreePart(b);
    assert a + SEP + b + SEP + rest == a + SEP + (b + SEP + rest);
    SplitPrefix(a, b + SEP + rest);
    SplitPrefix(b, rest);
  }

  /** The sanitiser does not remove bars, so the second half of such a summary spills over
      into the location, whatever the other fields are. */
  lemma {:induction false} SummarySpills(inc: Incident, a: string, b: string, isDate: string -> bool)
    requires Sanitize(inc.summary, 200) == a + SEP + b && '|' !in a && '|' !in b
    ensures var parsed := ParseRemarks(XmlText(Join(Fields(inc))), true, isDate);
            parsed.summary == a && parsed.location == b && SixOf(parsed) != Fields(inc)
  {
    var fields := Fields(inc);
    var raw, rest := XmlText(Join(fields)), Join(fields[1..]);
    assert Join(fields) == a + SEP + b + SEP + rest;
    SplitTwice(a, b, rest);
    UnescapeXmlText(Join(fields));
    TaggedParse(raw, isDate, 0);
    TaggedParse(raw, isDate, 1);
    var six := SixOf(ParseRemarks(raw, true, isDate));
    assert six[0] == a && six[1] == b;
    assert six[0] != fields[0] by {
      assert |a + SEP + b| > |a|;
    }
  }

  /** Such a summary is "a | b": it passes the sanitiser as it is. */
  lemma {:induction false} SummaryMaySpill(inc: Incident, isDate: string -> bool)
    requires inc.summary == "a | b" && inc.published == "2024-05-01T12:00:00.000000Z"
    ensures var parsed := ParseRemarks(XmlText(Join(Fields(inc))), true, isDate);
            Fields(inc)[0] == "a | b" && parsed.summary == "a" && parsed.location == "b"
  {
    CleanStays(inc.summary, 200);
    assert inc.summary == "a" + SEP + "b";
    SummarySpills(inc, "a", "b", isDate);
  }
}
