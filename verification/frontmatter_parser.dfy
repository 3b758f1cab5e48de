/** The Obsidian plugin's frontmatter handling: splitting a note into its YAML
    header and body, merging updates into the header, dropping empty values
    before writing it back, deriving entity ids from titles, collecting inline
    tags and validating the known fields. YAML reading and writing are given as
    functions; a header is a map from keys to values. */
module FrontmatterParser {
  import opened Common

  // ---------------------------------------------------------------------------
  // Values
  // ---------------------------------------------------------------------------

  /** A value read from YAML, as JavaScript sees it. */
  datatype Value =
    | Undefined
    | Null
    | Str(s: string)
    | Num(n: real)
    | Bool(b: bool)
    | Arr(items: seq<Value>)
    | Obj(fields: map<string, Value>)

  type Frontmatter = map<string, Value>

  /** `value === undefined || value === null`. */
  predicate Missing(v: Value) {
    v.Undefined? || v.Null?
  }

  /** JavaScript truthiness of a value. */
  predicate IsTruthy(v: Value) {
    match v
    case Undefined => false
    case Null => false
    case Str(s) => |s| > 0
    case Num(n) => n != 0.0
    case Bool(b) => b
    case Arr(_) => true
    case Obj(_) => true
  }

  /** `typeof value === 'object'` for a value that is not null. */
  predicate IsObjectLike(v: Value) {
    v.Arr? || v.Obj?
  }

  // ---------------------------------------------------------------------------
  // Reading and writing a note
  // ---------------------------------------------------------------------------

  const Fence := "---\n"
  const Closing := "\n---"

  /** `Closing` starts at index `j` of `content`. */
  predicate ClosingAt(content: string, j: nat) {
    j + |Closing| <= |content| && content[j..j + |Closing|] == Closing
  }

  /** The first index at or after `i` where `Closing` starts, if any. */
  function FindClosing(content: string, i: nat): (r: Option<nat>)
    requires i <= |content|
    ensures r.Some? ==> i <= r.value && ClosingAt(content, r.value)
    ensures r.Some? ==> forall j :: i <= j < r.value ==> !ClosingAt(content, j)
    ensures r.None? ==> forall j :: i <= j ==> !ClosingAt(content, j)
    decreases |content| - i
  {
    if i + |Closing| > |content| then None
    else if content[i..i + |Closing|] == Closing then Some(i)
    else FindClosing(content, i + 1)
  }

  /** The match of `^---\n([\s\S]*?)\n---`: the length of the whole match
      and the header text between the fences, the shortest one possible. */
  function MatchFrontmatter(content: string): (r: Option<(nat, string)>)
    ensures r.Some? <==> StartsWith(content, Fence) && exists j :: |Fence| <= j && ClosingAt(content, j)
    ensures r.Some? ==> r.value.0 <= |content|
    ensures r.Some? ==>
              var j := r.value.0 - |Closing|;
              && |Fence| <= j && ClosingAt(content, j)
              && r.value.1 == content[|Fence|..j]
              && forall i :: |Fence| <= i < j ==> !ClosingAt(content, i)
  {
    if !StartsWith(content, Fence) then None
    else
      match FindClosing(content, |Fence|)
      case None => None
      case Some(j) => Some((j + |Closing|, content[|Fence|..j]))
  }

  /** What `parseYaml` gives: the header it read (`None` for an empty or null
      document), or an error when it throws. */
  type YamlReader = string -> Result<Option<Frontmatter>, string>

  /** `parse`: the header and the body of a note. Without a header the whole
      note, trimmed, is the body; when the header does not read as YAML the
      untrimmed note is the body. */
  function Parse(content: string, parseYaml: YamlReader): (r: (Frontmatter, string))
    ensures MatchFrontmatter(content).None? ==> r == (map[], TrimJs(content))
    ensures MatchFrontmatter(content).Some? && parseYaml(MatchFrontmatter(content).value.1).Err? ==> r == (map[], content)
  {
    match MatchFrontmatter(content)
    case None => (map[], TrimJs(content))
    case Some((len, header)) =>
      match parseYaml(header)
      case Err(_) => (map[], content)
      case Ok(fm) => (fm.GetOr(map[]), TrimJs(content[len..]))
  }

  /** `serialize`: the cleaned header between fences, a blank line, then the
      body; only the body when nothing survives cleaning. */
  function Serialize(fm: Frontmatter, body: string, stringifyYaml: Frontmatter -> string): (r: string)
    ensures |CleanFrontmatter(fm)| == 0 ==> r == body
    ensures |CleanFrontmatter(fm)| > 0 ==> StartsWith(r, Fence)
  {
    var cleaned := CleanFrontmatter(fm);
    if |cleaned| == 0 then body
    else
      var r := Fence + stringifyYaml(cleaned) + "---\n\n" + body;
      assert r[..|Fence|] == Fence;
      r
  }

  /** `update`: parse, merge the updates into the header, serialize. */
  function Update(content: string, updates: Frontmatter, parseYaml: YamlReader,
                  stringifyYaml: Frontmatter -> string): string
  {
    var (fm, body) := Parse(content, parseYaml);
    Serialize(MergeFrontmatter(fm, updates), body, stringifyYaml)
  }

  // ---------------------------------------------------------------------------
  // Merging
  // ---------------------------------------------------------------------------

  /** The keys whose object values are merged field by field. */
  predicate ShallowMerged(key: string) {
    key == "bmom" || key == "relationships" || key == "sbf"
  }

  /** The own enumerable properties object spread copies: an object's fields,
      an array's or a string's elements under their decimal indices, nothing
      for other values. */
  function SpreadFields(v: Value): (r: map<string, Value>)
    ensures v.Obj? ==> r == v.fields
    ensures !v.Obj? && !v.Arr? && !v.Str? ==> r == map[]
  {
    assert forall i: nat, j: nat :: i != j ==> NatToString(i) != NatToString(j) by {
      forall i: nat, j: nat | i != j ensures NatToString(i) != NatToString(j) {
        NatToStringRoundTrip(i);
        NatToStringRoundTrip(j);
      }
    }
    match v
    case Obj(fields) => fields
    case Arr(items) => map i | 0 <= i < |items| :: NatToString(i) := items[i]
    case Str(s) => map i | 0 <= i < |s| :: NatToString(i) := Str([s[i]])
    case _ => map[]
  }

  /** The value one update leaves under `key`. */
  function MergedValue(existing: Frontmatter, key: string, value: Value): Value {
    if ShallowMerged(key) && IsObjectLike(value) then
      Obj(SpreadFields(if key in existing then existing[key] else Undefined) + SpreadFields(value))
    else value
  }

  /** `mergeFrontmatter`: the existing header with every present update
      applied; `bmom`, `relationships` and `sbf` objects are merged one level
      deep, other values replace. */
  function MergeFrontmatter(existing: Frontmatter, updates: Frontmatter): (r: Frontmatter)
    ensures r.Keys == existing.Keys + set k | k in updates && !Missing(updates[k])
  {
    var applied := map k | k in updates && !Missing(updates[k]) :: MergedValue(existing, k, updates[k]);
    existing + applied
  }

  /** Null and undefined updates leave the key as it was; other values
      replace it, except that an object under a merged key keeps the existing
      fields it does not override. */
  lemma MergeEffect(existing: Frontmatter, updates: Frontmatter, key: string)
    ensures var r := MergeFrontmatter(existing, updates);
            && (key !in updates || Missing(updates[key]) ==>
                  (key in r <==> key in existing) && (key in existing ==> r[key] == existing[key]))
            && (key in updates && !Missing(updates[key]) && !(ShallowMerged(key) && IsObjectLike(updates[key])) ==>
                  r[key] == updates[key])
            && (key in updates && !Missing(updates[key]) && ShallowMerged(key) && IsObjectLike(updates[key]) ==>
                  r[key].Obj?
                  && (forall f :: f in SpreadFields(updates[key]) ==> f in r[key].fields && r[key].fields[f] == SpreadFields(updates[key])[f])
                  && (forall f :: key in existing && f in SpreadFields(existing[key]) && f !in SpreadFields(updates[key]) ==>
                        f in r[key].fields && r[key].fields[f] == SpreadFields(existing[key])[f]))
  {
  }

  /** Applying the same updates a second time changes nothing. */
  lemma MergeIdempotent(existing: Frontmatter, updates: Frontmatter)
    ensures MergeFrontmatter(MergeFrontmatter(existing, updates), updates) == MergeFrontmatter(existing, updates)
  {
    var once := MergeFrontmatter(existing, updates);
    var twice := MergeFrontmatter(once, updates);
    assert twice.Keys == once.Keys;
    forall k | k in twice.Keys
      ensures twice[k] == once[k]
    {
      MergeKeyIdempotent(existing, updates, k);
    }
  }

  /** One key of a header merged twice with the same updates. */
  lemma MergeKeyIdempotent(existing: Frontmatter, updates: Frontmatter, k: string)
    requires k in MergeFrontmatter(existing, updates)
    ensures var once := MergeFrontmatter(existing, updates);
            MergeFrontmatter(once, updates)[k] == once[k]
  {
    var once := MergeFrontmatter(existing, updates);
    if k in updates && !Missing(updates[k]) && ShallowMerged(k) && IsObjectLike(updates[k]) {
      var before := SpreadFields(if k in existing then existing[k] else Undefined);
      var add := SpreadFields(updates[k]);
      assert once[k] == Obj(before + add);
      assert SpreadFields(once[k]) == before + add;
      assert before + add + add == before + add;
    }
  }

  // ---------------------------------------------------------------------------
  // Cleaning
  // ---------------------------------------------------------------------------

  /** `cleanObject`: drop null and undefined fields and empty arrays. */
  function CleanObject(obj: map<string, Value>): (r: map<string, Value>)
    ensures r.Keys <= obj.Keys
    ensures forall k :: k in r ==> r[k] == obj[k]
    ensures forall k :: k in obj ==> (k in r <==> !Missing(obj[k]) && obj[k] != Arr([]))
  {
    map k | k in obj && !Missing(obj[k]) && obj[k] != Arr([]) :: obj[k]
  }

  /** Whether `cleanFrontmatter` keeps a top-level value. */
  predicate KeptAtTop(v: Value) {
    match v
    case Undefined => false
    case Null => false
    case Obj(fields) => |CleanObject(fields)| > 0
    case Arr(items) => |items| > 0
    case _ => true
  }

  /** The value `cleanFrontmatter` writes for a kept top-level value. */
  function CleanedTop(v: Value): Value {
    if v.Obj? then Obj(CleanObject(v.fields)) else v
  }

  /** `cleanFrontmatter`: drop null and undefined values and empty arrays,
      and clean nested objects, dropping those left empty. */
  function CleanFrontmatter(fm: Frontmatter): (r: Frontmatter)
    ensures r.Keys <= fm.Keys
    ensures forall k :: k in r ==> !Missing(r[k]) && r[k] != Arr([]) && r[k] != Obj(map[])
    ensures forall k :: k in r && r[k].Obj? ==>
              forall f :: f in r[k].fields ==> !Missing(r[k].fields[f]) && r[k].fields[f] != Arr([])
    ensures forall k :: k in fm && !fm[k].Obj? ==> (k in r <==> KeptAtTop(fm[k])) && (k in r ==> r[k] == fm[k])
    ensures forall k :: k in fm && fm[k].Obj? ==>
              (k in r <==> |CleanObject(fm[k].fields)| > 0) && (k in r ==> r[k] == Obj(CleanObject(fm[k].fields)))
  {
    map k | k in fm && KeptAtTop(fm[k]) :: CleanedTop(fm[k])
  }

  /** Cleaning an object without null, undefined or empty-array fields changes nothing. */
  lemma CleanObjectClean(obj: map<string, Value>)
    requires forall f :: f in obj ==> !Missing(obj[f]) && obj[f] != Arr([])
    ensures CleanObject(obj) == obj
  {
  }

  /** A value that survived cleaning survives again unchanged. */
  lemma CleanedTopStable(v: Value)
    requires KeptAtTop(v)
    ensures KeptAtTop(CleanedTop(v)) && CleanedTop(CleanedTop(v)) == CleanedTop(v)
  {
    if v.Obj? {
      CleanObjectClean(CleanObject(v.fields));
    }
  }

  /** Cleaning a clean header changes nothing. */
  lemma CleanIdempotent(fm: Frontmatter)
    ensures CleanFrontmatter(CleanFrontmatter(fm)) == CleanFrontmatter(fm)
  {
    var once := CleanFrontmatter(fm);
    var twice := CleanFrontmatter(once);
    forall k | k in fm && KeptAtTop(fm[k])
      ensures k in twice && twice[k] == once[k]
    {
      CleanedTopStable(fm[k]);
    }
  }

  /** Serializing a header that cleans to nothing leaves the body as it is. */
  lemma SerializeEmpty(body: string, stringifyYaml: Frontmatter -> string)
    ensures Serialize(map["title" := Null, "tags" := Arr([]), "bmom" := Obj(map["because" := Undefined])], body, stringifyYaml) == body
  {
    var fm := map["title" := Null, "tags" := Arr([]), "bmom" := Obj(map["because" := Undefined])];
    assert CleanObject(map["because" := Undefined]) == map[];
    assert forall k :: k in fm ==> !KeptAtTop(fm[k]);
    assert CleanFrontmatter(fm) == map[];
  }

  // ---------------------------------------------------------------------------
  // Round trip
  // ---------------------------------------------------------------------------

  /** A closing fence cannot start inside the text in front of `Closing`
      unless it lies wholly inside that text. */
  lemma FirstClosing(y: string, rest: string)
    requires forall j :: !ClosingAt(y, j)
    ensures var c := Fence + y + Closing + rest;
            FindClosing(c, |Fence|) == Some(|Fence| + |y|)
  {
    var c := Fence + y + Closing + rest;
    var k := |Fence| + |y|;
    assert c[k..k + |Closing|] == Closing;
    forall j | |Fence| <= j < k
      ensures !ClosingAt(c, j)
    {
      if j + |Closing| <= k {
        assert c[j..j + |Closing|] == y[j - |Fence|..j - |Fence| + |Closing|];
        assert !ClosingAt(y, j - |Fence|);
      } else {
        assert c[k] == '\n' && Closing[k - j] == '-';
        assert c[j..j + |Closing|][k - j] == c[k];
      }
    }
    assert ClosingAt(c, k);
  }

  /** The header match of a note laid out as fence, header, closing fence. */
  lemma MatchLaidOut(y: string, rest: string)
    requires forall j :: !ClosingAt(y, j)
    ensures MatchFrontmatter(Fence + y + Closing + rest) == Some((|Fence| + |y| + |Closing|, y))
  {
    var c := Fence + y + Closing + rest;
    FirstClosing(y, rest);
    assert c[..|Fence|] == Fence;
    assert c[|Fence|..|Fence| + |y|] == y;
  }

  /** A serialized note with a non-empty header is laid out as fence, header,
      closing fence, blank line, body. */
  lemma SerializedLayout(fm: Frontmatter, body: string, y: string, stringifyYaml: Frontmatter -> string)
    requires |CleanFrontmatter(fm)| > 0
    requires stringifyYaml(CleanFrontmatter(fm)) == y + "\n"
    ensures Serialize(fm, body, stringifyYaml) == Fence + y + Closing + ("\n\n" + body)
  {
  }

  /** Reading back a serialized note gives the cleaned header and the trimmed
      body, when the YAML writer ends its output with a line break, writes no
      line that starts with `---`, and the reader reads that output back. */
  lemma ParseSerialize(fm: Frontmatter, body: string, y: string,
                       stringifyYaml: Frontmatter -> string, parseYaml: YamlReader)
    requires |CleanFrontmatter(fm)| > 0
    requires stringifyYaml(CleanFrontmatter(fm)) == y + "\n"
    requires forall j :: !ClosingAt(y, j)
    requires parseYaml(y) == Ok(Some(CleanFrontmatter(fm)))
    ensures Parse(Serialize(fm, body, stringifyYaml), parseYaml) == (CleanFrontmatter(fm), TrimJs(body))
  {
    var c := Serialize(fm, body, stringifyYaml);
    var rest := "\n\n" + body;
    SerializedLayout(fm, body, y, stringifyYaml);
    MatchLaidOut(y, rest);
    var len := |Fence| + |y| + |Closing|;
    assert c[len..] == rest;
    TrimLeadingSpace("\n\n", body, IsJsWhitespace);
  }

  /** A note without a header keeps its trimmed text when the updates are all
      null or undefined. */
  lemma UpdateWithoutHeader(content: string, updates: Frontmatter, parseYaml: YamlReader,
                            stringifyYaml: Frontmatter -> string)
    requires MatchFrontmatter(content).None?
    requires forall k :: k in updates ==> Missing(updates[k])
    ensures Update(content, updates, parseYaml, stringifyYaml) == TrimJs(content)
  {
    assert MergeFrontmatter(map[], updates) == map[];
  }

  // ---------------------------------------------------------------------------
  // Ids
  // ---------------------------------------------------------------------------

  /** The characters a slug keeps: `[a-z0-9]`. */
  predicate IsSlugChar(c: char) {
    IsAsciiLower(c) || IsDigit(c)
  }

  /** Only `[a-z0-9-]`. */
  ghost predicate SlugChars(s: string) {
    forall i :: 0 <= i < |s| ==> IsSlugChar(s[i]) || s[i] == '-'
  }

  /** No two dashes in a row. */
  ghost predicate NoDoubleDash(s: string) {
    forall i, j :: 0 <= i < j < |s| && j == i + 1 ==> s[i] != '-' || s[j] != '-'
  }

  /** A slug: only `[a-z0-9-]`, no leading dash, no two dashes in a row. */
  ghost predicate SlugShaped(s: string) {
    SlugChars(s) && (|s| > 0 ==> s[0] != '-') && NoDoubleDash(s)
  }

  /** The letters and digits of `s`, in order: what remains of it once
      every other character is dropped. */
  function SlugLetters(s: string): string
    decreases |s|
  {
    if |s| == 0 then ""
    else if IsSlugChar(s[0]) then [s[0]] + SlugLetters(s[1..])
    else SlugLetters(s[1..])
  }

  /** The letters and digits of a concatenation are those of its parts. */
  lemma {:induction false} SlugLettersAppend(a: string, b: string)
    ensures SlugLetters(a + b) == SlugLetters(a) + SlugLetters(b)
    decreases |a|
  {
    if |a| > 0 {
      assert (a + b)[1..] == a[1..] + b;
      SlugLettersAppend(a[1..], b);
    } else {
      assert a + b == b;
    }
  }

  /** `.replace(/[^a-z0-9]+/g, '-')`: every run of other characters becomes
      one dash. `inRun` says the previous character already started a run. */
  function DashRuns(s: string, inRun: bool): (r: string)
    ensures SlugChars(r) && NoDoubleDash(r)
    ensures inRun && |r| > 0 ==> r[0] != '-'
    ensures SlugLetters(r) == SlugLetters(s)
    decreases |s|
  {
    if |s| == 0 then ""
    else if IsSlugChar(s[0]) then
      var rest := DashRuns(s[1..], false);
      var r := [s[0]] + rest;
      assert forall i :: 1 <= i < |r| ==> r[i] == rest[i - 1];
      assert r[1..] == rest;
      r
    else if inRun then DashRuns(s[1..], true)
    else
      var rest := DashRuns(s[1..], true);
      var r := "-" + rest;
      assert forall i :: 1 <= i < |r| ==> r[i] == rest[i - 1];
      assert r[1..] == rest;
      r
  }

  /** The regular expression's replacement read in two steps, the first:
      every character other than `[a-z0-9]` becomes a dash. */
  function Dashify(s: string): string {
    seq(|s|, i requires 0 <= i < |s| => if IsSlugChar(s[i]) then s[i] else '-')
  }

  /** The second step: every run of dashes shrinks to one dash. */
  function Squeeze(t: string): string
    decreases |t|
  {
    if |t| < 2 then t
    else if t[0] == '-' && t[1] == '-' then Squeeze(t[1..])
    else [t[0]] + Squeeze(t[1..])
  }

  /** Replacing runs in one pass is the same as turning every other
      character into a dash and then squeezing the runs of dashes. */
  lemma {:induction false} DashRunsCollapses(s: string)
    ensures DashRuns(s, false) == Squeeze(Dashify(s))
    decreases |s|
  {
    if |s| > 0 {
      var d := Dashify(s);
      assert d[1..] == Dashify(s[1..]);
      DashRunsCollapses(s[1..]);
      if |s| >= 2 {
        assert s[1..][1..] == s[2..];
        if IsSlugChar(s[0]) {
          assert Squeeze(d) == [s[0]] + Squeeze(d[1..]);
        } else if IsSlugChar(s[1]) {
          assert Squeeze(d) == "-" + Squeeze(d[1..]);
          assert DashRuns(s[1..], true) == DashRuns(s[1..], false);
        } else {
          assert Squeeze(d) == Squeeze(d[1..]);
          assert DashRuns(s[1..], false) == "-" + DashRuns(s[2..], true);
          assert DashRuns(s[1..], true) == DashRuns(s[2..], true);
        }
      }
    }
  }

  /** `.replace(/^-|-$/g, '')`: one leading and one trailing dash removed. */
  function TrimDashes(s: string): (r: string)
    ensures SlugChars(s) && NoDoubleDash(s) ==> SlugShaped(r) && (|r| > 0 ==> r[|r| - 1] != '-')
  {
    var d := if |s| > 0 && s[0] == '-' then 1 else 0;
    var e := if |s| > d && s[|s| - 1] == '-' then 1 else 0;
    var r := s[d..|s| - e];
    assert forall i :: 0 <= i < |r| ==> r[i] == s[d + i];
    assert |r| > 0 && e == 1 ==> s[d + |r| - 1] == r[|r| - 1] && s[d + |r|] == '-';
    r
  }

  /** A trailing dash adds no letter or digit. */
  lemma {:induction false} SlugLettersDashEnd(x: string)
    ensures SlugLetters(x + "-") == SlugLetters(x)
  {
    SlugLettersAppend(x, "-");
    assert SlugLetters("-") == "";
  }

  /** Dropping dashes at the two ends of a text keeps its letters and digits. */
  lemma {:induction false} SlugLettersInside(s: string, d: nat, e: nat)
    requires d <= 1 && e <= 1 && d + e <= |s|
    requires d == 1 ==> s[0] == '-'
    requires e == 1 ==> s[|s| - 1] == '-'
    ensures SlugLetters(s[d..|s| - e]) == SlugLetters(s)
  {
    var u := s[d..];
    assert SlugLetters(u) == SlugLetters(s) by {
      if d == 1 {
        assert s[1..] == u;
      }
    }
    assert SlugLetters(u[..|u| - e]) == SlugLetters(u) by {
      if e == 1 {
        assert u == u[..|u| - 1] + "-";
        SlugLettersDashEnd(u[..|u| - 1]);
      } else {
        assert u[..|u|] == u;
      }
    }
    assert u[..|u| - e] == s[d..|s| - e];
  }

  /** Trimming drops only dashes, at most one at each end, and keeps the
      rest of the text in place. */
  lemma {:induction false} TrimDashesDropsDashes(s: string)
    ensures var r := TrimDashes(s);
            var i := if |s| > 0 && s[0] == '-' then 1 else 0;
            && i + |r| <= |s| && |s| - i - |r| <= 1 && r == s[i..i + |r|]
            && SlugLetters(r) == SlugLetters(s)
  {
    var d := if |s| > 0 && s[0] == '-' then 1 else 0;
    var e := if |s| > d && s[|s| - 1] == '-' then 1 else 0;
    var r := TrimDashes(s);
    assert r == s[d..|s| - e];
    SlugLettersInside(s, d, e);
    assert SlugLetters(r) == SlugLetters(s);
  }

  /** The slug of a title: ASCII lower-cased, runs of other characters turned
      into dashes, outer dashes removed, cut to 30 characters. */
  function Slug(title: string): (r: string)
    ensures |r| <= 30
    ensures SlugShaped(r)
    ensures 0 < |r| < 30 ==> r[|r| - 1] != '-'
  {
    var trimmed := TrimDashes(DashRuns(AsciiLower(title), false));
    if |trimmed| <= 30 then trimmed else trimmed[..30]
  }

  /** What the slug says about its title: it is the title's letters and
      digits with every run of other characters squeezed to one dash,
      without a leading dash, cut to 30; and its letters and digits are the
      title's, in order, all of them when the cut did not bite. */
  lemma {:induction false} SlugMeaning(title: string)
    ensures var r := Slug(title);
            var t := Squeeze(Dashify(AsciiLower(title)));
            var i := if |t| > 0 && t[0] == '-' then 1 else 0;
            i + |r| <= |t| && r == t[i..i + |r|]
    ensures SlugLetters(Slug(title)) <= SlugLetters(AsciiLower(title))
    ensures |Slug(title)| < 30 ==> SlugLetters(Slug(title)) == SlugLetters(AsciiLower(title))
  {
    var lower := AsciiLower(title);
    DashRunsCollapses(lower);
    var trimmed := TrimDashes(DashRuns(lower, false));
    TrimDashesDropsDashes(DashRuns(lower, false));
    if |trimmed| > 30 {
      assert trimmed == trimmed[..30] + trimmed[30..];
      SlugLettersAppend(trimmed[..30], trimmed[30..]);
    }
  }

  /** `generateUid`: `type-slug`, with `-counter` appended when a non-zero
      counter is given. */
  function GenerateUid(entityType: string, title: string, counter: Option<int>): (r: string)
    ensures StartsWith(r, entityType + "-" + Slug(title))
    ensures counter.None? || counter.value == 0 ==> r == entityType + "-" + Slug(title)
    ensures counter.Some? && counter.value != 0 ==> r == entityType + "-" + Slug(title) + "-" + IntToString(counter.value)
  {
    var suffix := if counter.Some? && counter.value != 0 then "-" + IntToString(counter.value) else "";
    var r := entityType + "-" + Slug(title) + suffix;
    assert r[..|entityType + "-" + Slug(title)|] == entityType + "-" + Slug(title);
    r
  }

  /** The number of leading lower-case letters of `s` from `i`. */
  function LeadLetters(s: string, i: nat): (k: nat)
    requires i <= |s|
    ensures i <= k <= |s|
    ensures forall j :: i <= j < k ==> IsAsciiLower(s[j])
    ensures k < |s| ==> !IsAsciiLower(s[k])
    decreases |s| - i
  {
    if i < |s| && IsAsciiLower(s[i]) then LeadLetters(s, i + 1) else i
  }

  /** `/^[a-z]+-[a-z0-9-]+$/`, read left to right: the letters run up to the
      first other character, which must be a dash followed by at least one
      slug character or dash. */
  predicate UidFormat(s: string) {
    var k := LeadLetters(s, 0);
    && k >= 1 && k + 1 < |s| && s[k] == '-'
    && forall j :: k < j < |s| ==> IsSlugChar(s[j]) || s[j] == '-'
  }

  /** The same pattern as a search for a split point. */
  ghost predicate UidPattern(s: string) {
    exists i :: 1 <= i && i + 1 < |s| && (forall j :: 0 <= j < i ==> IsAsciiLower(s[j])) && s[i] == '-'
                && forall j :: i < j < |s| ==> IsSlugChar(s[j]) || s[j] == '-'
  }

  /** The left-to-right reading of the UID pattern accepts exactly the strings the pattern matches. */
  lemma UidFormatMatchesPattern(s: string)
    ensures UidFormat(s) <==> UidPattern(s)
  {
    var k := LeadLetters(s, 0);
    if UidPattern(s) {
      var i :| 1 <= i && i + 1 < |s| && (forall j :: 0 <= j < i ==> IsAsciiLower(s[j])) && s[i] == '-'
               && forall j :: i < j < |s| ==> IsSlugChar(s[j]) || s[j] == '-';
      LeadLettersAt(s, i, 0);
    }
  }

  /** A lower-case type and a non-empty slug or a counter give a UID that
      passes validation. */
  lemma GeneratedUidValid(entityType: string, title: string, counter: Option<int>)
    requires |entityType| > 0 && forall i :: 0 <= i < |entityType| ==> IsAsciiLower(entityType[i])
    requires |Slug(title)| > 0 || (counter.Some? && counter.value != 0)
    ensures UidFormat(GenerateUid(entityType, title, counter))
  {
    var slug := Slug(title);
    var suffix := if counter.Some? && counter.value != 0 then "-" + IntToString(counter.value) else "";
    assert GenerateUid(entityType, title, counter) == entityType + "-" + slug + suffix;
    CounterSuffixChars(counter);
    SlugCharsAppend(slug, suffix);
    AppendAssociative(entityType + "-", slug, suffix);
    UidOfParts(entityType, slug + suffix);
  }

  /** The counter suffix is a dash and digits, with a second dash for a negative counter. */
  lemma CounterSuffixChars(counter: Option<int>)
    ensures var suffix := if counter.Some? && counter.value != 0 then "-" + IntToString(counter.value) else "";
            SlugChars(suffix) && (counter.Some? && counter.value != 0 ==> |suffix| > 0)
  {
    if counter.Some? && counter.value != 0 {
      var n := counter.value;
      if n < 0 {
        assert IntToString(n) == "-" + NatToString(-n);
      }
    }
  }

  lemma SlugCharsAppend(a: string, b: string)
    requires SlugChars(a) && SlugChars(b)
    ensures SlugChars(a + b)
  {
    assert forall j :: |a| <= j < |a + b| ==> (a + b)[j] == b[j - |a|];
  }

  /** Lower-case letters, a dash and a non-empty run of slug characters and dashes form a UID. */
  lemma UidOfParts(letters: string, rest: string)
    requires |letters| > 0 && forall i :: 0 <= i < |letters| ==> IsAsciiLower(letters[i])
    requires |rest| > 0 && SlugChars(rest)
    ensures UidFormat(letters + "-" + rest)
  {
    var uid := letters + "-" + rest;
    assert forall i :: 0 <= i < |letters| ==> uid[i] == letters[i];
    assert uid[|letters|] == '-';
    assert LeadLetters(uid, 0) == |letters| by {
      LeadLettersAt(uid, |letters|, 0);
    }
    assert forall j :: |letters| < j < |uid| ==> uid[j] == rest[j - |letters| - 1];
  }

  /** The run of lower-case letters stops at the first other character. */
  lemma {:induction false} LeadLettersAt(s: string, k: nat, i: nat)
    requires i <= k < |s| && !IsAsciiLower(s[k]) && forall j :: i <= j < k ==> IsAsciiLower(s[j])
    ensures LeadLetters(s, i) == k
    decreases k - i
  {
    if i < k {
      LeadLettersAt(s, k, i + 1);
    }
  }

  /** A title with nothing to keep gives the UID `type-`, which validation rejects. */
  lemma EmptySlugUidRejected()
    ensures GenerateUid("note", "!!", None) == "note-"
    ensures !UidFormat("note-")
  {
    assert AsciiLower("!!") == "!!";
    assert DashRuns("!!", false) == "-";
    assert TrimDashes("-") == "";
  }

  // ---------------------------------------------------------------------------
  // Inline tags
  // ---------------------------------------------------------------------------

  /** The characters after a tag's first letter: `[a-zA-Z0-9_-]`. */
  predicate IsTagChar(c: char) {
    IsAsciiLetter(c) || IsDigit(c) || c == '_' || c == '-'
  }

  /** The end of the run of tag characters starting at `i`. */
  function TagEnd(s: string, i: nat): (k: nat)
    requires i <= |s|
    ensures i <= k <= |s|
    ensures forall j :: i <= j < k ==> IsTagChar(s[j])
    ensures k < |s| ==> !IsTagChar(s[k])
    decreases |s| - i
  {
    if i < |s| && IsTagChar(s[i]) then TagEnd(s, i + 1) else i
  }

  /** The tag that `#([a-zA-Z][a-zA-Z0-9_-]*)` matches at position `i`, if any:
      the longest run of tag characters after a `#` and a letter. */
  function TagAt(s: string, i: nat): (r: Option<string>)
    ensures r.Some? ==> i + 1 < |s| && s[i] == '#' && r.value == s[i + 1..TagEnd(s, i + 1)]
    ensures (i + 1 < |s| && s[i] == '#' && IsAsciiLetter(s[i + 1])) <==> r.Some?
  {
    if i + 1 < |s| && s[i] == '#' && IsAsciiLetter(s[i + 1]) then Some(s[i + 1..TagEnd(s, i + 1)]) else None
  }

  /** The matches of the global tag pattern from position `i` on, in order,
      repeats included: after a match the search resumes where it ended. */
  function TagScan(s: string, i: nat): (r: seq<string>)
    requires i <= |s|
    decreases |s| - i
  {
    if i == |s| then []
    else match TagAt(s, i)
      case Some(t) => [t] + TagScan(s, TagEnd(s, i + 1))
      case None => TagScan(s, i + 1)
  }

  /** A word is a tag: a letter followed by tag characters. */
  ghost predicate TagShaped(t: string) {
    |t| > 0 && IsAsciiLetter(t[0]) && forall j :: 0 <= j < |t| ==> IsTagChar(t[j])
  }

  /** The scan finds exactly the tags at the positions from `i` on. */
  lemma {:induction false} TagScanExact(s: string, i: nat, t: string)
    requires i <= |s|
    ensures t in TagScan(s, i) <==> exists p :: i <= p < |s| && TagAt(s, p) == Some(t)
    decreases |s| - i
  {
    if i < |s| {
      if TagAt(s, i).Some? {
        TagScanExact(s, TagEnd(s, i + 1), t);
        TagScanAtTag(s, i, t);
      } else {
        TagScanExact(s, i + 1, t);
        TagScanPastNonTag(s, i, t);
      }
    }
  }

  /** A tag at `i` is reported, and the scan resumes after it. */
  lemma TagScanAtTag(s: string, i: nat, t: string)
    requires i < |s| && TagAt(s, i).Some?
    requires var e := TagEnd(s, i + 1);
             t in TagScan(s, e) <==> exists p :: e <= p < |s| && TagAt(s, p) == Some(t)
    ensures t in TagScan(s, i) <==> exists p :: i <= p < |s| && TagAt(s, p) == Some(t)
  {
    var e := TagEnd(s, i + 1);
    assert TagScan(s, i) == [TagAt(s, i).value] + TagScan(s, e);
    NoTagInside(s, i, e);
    if exists p :: i <= p < |s| && TagAt(s, p) == Some(t) {
      var p :| i <= p < |s| && TagAt(s, p) == Some(t);
      if p != i {
        assert e <= p;
      }
    }
  }

  /** Where no tag starts, the scan moves on by one. */
  lemma TagScanPastNonTag(s: string, i: nat, t: string)
    requires i < |s| && TagAt(s, i).None?
    requires t in TagScan(s, i + 1) <==> exists p :: i + 1 <= p < |s| && TagAt(s, p) == Some(t)
    ensures t in TagScan(s, i) <==> exists p :: i <= p < |s| && TagAt(s, p) == Some(t)
  {
    assert TagScan(s, i) == TagScan(s, i + 1);
    if exists p :: i <= p < |s| && TagAt(s, p) == Some(t) {
      var p :| i <= p < |s| && TagAt(s, p) == Some(t);
      assert p != i;
    }
  }

  /** Positions inside a matched tag hold tag characters, never a `#`. */
  lemma NoTagInside(s: string, i: nat, e: nat)
    requires i + 1 <= |s| && e == TagEnd(s, i + 1)
    ensures forall p :: i < p < e ==> TagAt(s, p).None?
  {
    forall p | i < p < e
      ensures TagAt(s, p).None?
    {
      assert IsTagChar(s[p]);
    }
  }

  /** The distinct elements in order of first occurrence, as a JavaScript
      `Set` keeps them. */
  function Distinct(s: seq<string>): (r: seq<string>)
    ensures forall x :: x in r <==> x in s
    ensures forall j, k :: 0 <= j < k < |r| ==> r[j] != r[k]
  {
    if |s| == 0 then []
    else
      var d := Distinct(s[..|s| - 1]);
      assert s == s[..|s| - 1] + [s[|s| - 1]];
      if s[|s| - 1] in d then d else d + [s[|s| - 1]]
  }

  /** `extractTagsFromContent`: the inline `#tags` of a note, each once, in
      order of first appearance. */
  function ExtractTags(content: string): (r: seq<string>)
    ensures forall j, k :: 0 <= j < k < |r| ==> r[j] != r[k]
  {
    Distinct(TagScan(content, 0))
  }

  /** A word is an extracted tag exactly when the pattern matches it somewhere
      in the note, and every extracted tag has the shape of a tag. */
  lemma ExtractTagsExact(content: string, t: string)
    ensures t in ExtractTags(content) <==> exists p :: 0 <= p < |content| && TagAt(content, p) == Some(t)
    ensures t in ExtractTags(content) ==> TagShaped(t)
  {
    TagScanExact(content, 0, t);
    if t in ExtractTags(content) {
      var p :| 0 <= p < |content| && TagAt(content, p) == Some(t);
      assert t[0] == content[p + 1];
    }
  }

  /** A note that is one tag yields that tag. */
  lemma SingleTag(t: string)
    requires TagShaped(t)
    ensures ExtractTags("#" + t) == [t]
  {
    var s := "#" + t;
    assert TagEnd(s, 1) == |s| by {
      TagEndAll(s, 1);
    }
    assert s[1..|s|] == t;
    assert TagAt(s, 0) == Some(t);
    assert TagScan(s, 0) == [t] + TagScan(s, |s|);
    assert [t][..0] == [];
    assert Distinct([t]) == [t];
  }

  /** A run of tag characters to the end of the text is read whole. */
  lemma {:induction false} TagEndAll(s: string, i: nat)
    requires i <= |s| && forall j :: i <= j < |s| ==> IsTagChar(s[j])
    ensures TagEnd(s, i) == |s|
    decreases |s| - i
  {
    if i < |s| {
      TagEndAll(s, i + 1);
    }
  }

  // ---------------------------------------------------------------------------
  // Validation
  // ---------------------------------------------------------------------------

  /** A property of the header, `undefined` when absent. */
  function Field(fm: Frontmatter, key: string): (v: Value)
    ensures key !in fm ==> v == Undefined
  {
    if key in fm then fm[key] else Undefined
  }

  /** The problems that make a header invalid. */
  datatype ValidationError =
    | InvalidUidFormat
    | InvalidSensitivity(sensitivity: Value)
    | InvalidLifecycle(lifecycle: Value)
    | ConfidenceOutOfRange

  /** The recommended fields that are missing. */
  datatype ValidationWarning = TypeNotSpecified | TitleNotSpecified

  datatype ValidationResult = ValidationResult(valid: bool, errors: seq<ValidationError>, warnings: seq<ValidationWarning>)

  const SensitivityLevels: seq<string> := ["public", "personal", "confidential", "secret"]
  const LifecycleStates: seq<string> := ["fleeting", "maturing", "evergreen", "archived"]

  /** `Array.prototype.includes` on a list of strings: strict equality, so
      only a string can be found. */
  predicate Includes(names: seq<string>, v: Value) {
    v.Str? && v.s in names
  }

  /** A truthy UID that fails the pattern. The pattern test reads a non-string
      value through its string form, which `uidText` gives. */
  predicate BadUid(v: Value, uidText: Value -> string) {
    IsTruthy(v) && !UidFormat(if v.Str? then v.s else uidText(v))
  }

  /** A defined confidence outside [0, 1]. The comparison reads strings,
      arrays and objects as numbers through `toNumber` (`None` for `NaN`,
      which is never out of range); `null` and `false` read as 0, `true` as 1. */
  predicate BadConfidence(v: Value, toNumber: Value -> Option<real>) {
    match v
    case Undefined => false
    case Null => false
    case Bool(_) => false
    case Num(n) => n < 0.0 || n > 1.0
    case _ => toNumber(v).Some? && (toNumber(v).value < 0.0 || toNumber(v).value > 1.0)
  }

  /** `validate`: the errors in the order the checks run (UID, sensitivity,
      lifecycle, confidence), then the warnings for a missing type or title. */
  function Validate(fm: Frontmatter, uidText: Value -> string, toNumber: Value -> Option<real>): (r: ValidationResult)
    ensures r.valid <==> |r.errors| == 0
    ensures InvalidUidFormat in r.errors <==> BadUid(Field(fm, "uid"), uidText)
    ensures (exists v :: InvalidSensitivity(v) in r.errors)
        <==> IsTruthy(Field(fm, "sensitivity")) && !Includes(SensitivityLevels, Field(fm, "sensitivity"))
    ensures (exists v :: InvalidLifecycle(v) in r.errors)
        <==> IsTruthy(Field(fm, "lifecycle")) && !Includes(LifecycleStates, Field(fm, "lifecycle"))
    ensures ConfidenceOutOfRange in r.errors <==> BadConfidence(Field(fm, "confidence"), toNumber)
    ensures TypeNotSpecified in r.warnings <==> !IsTruthy(Field(fm, "type"))
    ensures TitleNotSpecified in r.warnings <==> !IsTruthy(Field(fm, "title"))
  {
    var errors := ValidationErrors(fm, uidText, toNumber);
    ValidationResult(|errors| == 0, errors, ValidationWarnings(fm))
  }

  /** The errors of `validate`, in the order the checks run. */
  function ValidationErrors(fm: Frontmatter, uidText: Value -> string, toNumber: Value -> Option<real>): (errors: seq<ValidationError>)
    ensures InvalidUidFormat in errors <==> BadUid(Field(fm, "uid"), uidText)
    ensures (exists v :: InvalidSensitivity(v) in errors)
        <==> IsTruthy(Field(fm, "sensitivity")) && !Includes(SensitivityLevels, Field(fm, "sensitivity"))
    ensures (exists v :: InvalidLifecycle(v) in errors)
        <==> IsTruthy(Field(fm, "lifecycle")) && !Includes(LifecycleStates, Field(fm, "lifecycle"))
    ensures ConfidenceOutOfRange in errors <==> BadConfidence(Field(fm, "confidence"), toNumber)
  {
    var sensitivity := Field(fm, "sensitivity");
    var lifecycle := Field(fm, "lifecycle");
    var a := if BadUid(Field(fm, "uid"), uidText) then [InvalidUidFormat] else [];
    var b := if IsTruthy(sensitivity) && !Includes(SensitivityLevels, sensitivity) then [InvalidSensitivity(sensitivity)] else [];
    var c := if IsTruthy(lifecycle) && !Includes(LifecycleStates, lifecycle) then [InvalidLifecycle(lifecycle)] else [];
    var d := if BadConfidence(Field(fm, "confidence"), toNumber) then [ConfidenceOutOfRange] else [];
    var errors := a + b + c + d;
    assert forall x :: x in errors <==> x in a || x in b || x in c || x in d;
    errors
  }

  /** The warnings of `validate`. */
  function ValidationWarnings(fm: Frontmatter): (warnings: seq<ValidationWarning>)
    ensures TypeNotSpecified in warnings <==> !IsTruthy(Field(fm, "type"))
    ensures TitleNotSpecified in warnings <==> !IsTruthy(Field(fm, "title"))
  {
    (if !IsTruthy(Field(fm, "type")) then [TypeNotSpecified] else [])
    + (if !IsTruthy(Field(fm, "title")) then [TitleNotSpecified] else [])
  }

  // ---------------------------------------------------------------------------
  // New notes
  // ---------------------------------------------------------------------------

  /** `createMinimal`: a generated UID, the type and title, both timestamps
      set to `now`, sensitivity `personal`, then the options spread over them. */
  function CreateMinimal(entityType: string, title: string, options: Frontmatter, now: string): (r: Frontmatter)
    ensures r.Keys == options.Keys + {"uid", "type", "title", "created", "modified", "sensitivity"}
    ensures forall k :: k in options ==> r[k] == options[k]
    ensures "uid" !in options ==> r["uid"] == Str(GenerateUid(entityType, title, None))
    ensures "type" !in options ==> r["type"] == Str(entityType)
    ensures "title" !in options ==> r["title"] == Str(title)
    ensures "sensitivity" !in options ==> r["sensitivity"] == Str("personal")
    ensures "created" !in options && "modified" !in options ==> r["created"] == r["modified"] == Str(now)
  {
    map[
      "uid" := Str(GenerateUid(entityType, title, None)),
      "type" := Str(entityType),
      "title" := Str(title),
      "created" := Str(now),
      "modified" := Str(now),
      "sensitivity" := Str("personal")
    ] + options
  }

  /** A new note for a lower-case type and a title with something to slug
      passes validation with no warnings. */
  lemma CreateMinimalValid(entityType: string, title: string, now: string,
                           uidText: Value -> string, toNumber: Value -> Option<real>)
    requires |entityType| > 0 && forall i :: 0 <= i < |entityType| ==> IsAsciiLower(entityType[i])
    requires |Slug(title)| > 0 && |title| > 0
    ensures var v := Validate(CreateMinimal(entityType, title, map[], now), uidText, toNumber);
            v.valid && v.warnings == []
  {
    var fm := CreateMinimal(entityType, title, map[], now);
    GeneratedUidValid(entityType, title, None);
    assert Field(fm, "sensitivity") == Str("personal");
    assert Includes(SensitivityLevels, Str("personal"));
    assert Field(fm, "lifecycle") == Undefined;
    assert Field(fm, "confidence") == Undefined;
  }
}
