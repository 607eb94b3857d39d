/**
 * The queries `find` and `find_blocked_numbers` build
 * (services/contacts/src/db.rs): which column is searched, the `LIKE`
 * pattern made from the filter value, and the `ORDER BY` clause.
 *
 * A `LIKE` pattern is kept as its literal core and whether a `%` stands
 * before and after it. `PatternMatches` reads such a pattern the way SQL
 * does for a core without wildcard characters: `%x%` asks that `x` occur,
 * `x%` that the text start with `x`, `%x` that it end with `x`, and `x`
 * that it be `x`.
 */
module ContactsFind {

  import opened Wrappers
  import opened Common
  import opened Text
  import opened ContactsTypes
  import opened ContactsCodec

  // ---------------------------------------------------------------------
  // Into<String> for SortOption and Order
  // ---------------------------------------------------------------------

  /** The column a sort option orders by. */
  function SortColumn(s: SortOption): (column: string)
    ensures |column| > 0
  {
    match s
    case GivenName => "given_name"
    case FamilyName => "family_name"
    case Name => "name"
  }

  /** The SQL keyword of an order. */
  function OrderKeyword(o: Order): (keyword: string)
    ensures |keyword| > 0
  {
    match o
    case Ascending => "ASC"
    case Descending => "DESC"
  }

  /** Distinct sort options and orders give distinct SQL. */
  lemma SortAndOrderInjective(s1: SortOption, s2: SortOption, o1: Order, o2: Order)
    ensures SortColumn(s1) == SortColumn(s2) <==> s1 == s2
    ensures OrderKeyword(o1) == OrderKeyword(o2) <==> o1 == o2
  {
    if s1 != s2 {
      assert SortColumn(s1)[0] != SortColumn(s2)[0] || |SortColumn(s1)| != |SortColumn(s2)|;
    }
    if o1 != o2 {
      assert |OrderKeyword(o1)| != |OrderKeyword(o2)|;
    }
  }

  // ---------------------------------------------------------------------
  // LIKE patterns
  // ---------------------------------------------------------------------

  datatype LikePattern = LikePattern(anyBefore: bool, core: string, anyAfter: bool)

  /** The pattern as the SQL text bound to `:value`. */
  function Render(p: LikePattern): (text: string)
    ensures |text| == |p.core| + (if p.anyBefore then 1 else 0) + (if p.anyAfter then 1 else 0)
  {
    (if p.anyBefore then "%" else "") + p.core + (if p.anyAfter then "%" else "")
  }

  /** `u` ends `w`. */
  predicate IsSuffix(u: string, w: string) {
    |u| <= |w| && w[|w| - |u|..] == u
  }

  /** Whether a text satisfies the pattern, reading its core literally. */
  ghost predicate PatternMatches(p: LikePattern, text: string) {
    if p.anyBefore && p.anyAfter then exists k: nat :: OccursAt(p.core, text, k)
    else if p.anyAfter then p.core <= text
    else if p.anyBefore then IsSuffix(p.core, text)
    else text == p.core
  }

  // ---------------------------------------------------------------------
  // FuzzyMatch: keep the last MIN_MATCH_DIGITS bytes
  // ---------------------------------------------------------------------

  /** Some tail of `v` is exactly `MIN_MATCH_DIGITS` bytes long: the cut falls between characters. */
  ghost predicate CutOnBoundary(v: string) {
    exists k :: 0 <= k <= |v| && BytesFrom(v, k) == MIN_MATCH_DIGITS
  }

  /** The bytes of `v` from its character `k` on. */
  function BytesFrom(v: string, k: nat): nat
    requires k <= |v|
  {
    ByteLen(v[k..])
  }

  /**
   * The `FuzzyMatch` core: a value longer than `MIN_MATCH_DIGITS` bytes is
   * cut to its last `MIN_MATCH_DIGITS` bytes; when that cut falls inside a
   * character the whole value is kept (as `find_blocked_numbers` does).
   */
  function FuzzyCore(v: string): (core: string)
    ensures IsSuffix(core, v)
    ensures ByteLen(v) <= MIN_MATCH_DIGITS ==> core == v
    ensures ByteLen(v) > MIN_MATCH_DIGITS ==> (ByteLen(core) == MIN_MATCH_DIGITS <==> CutOnBoundary(v))
    ensures ByteLen(v) > MIN_MATCH_DIGITS && !CutOnBoundary(v) ==> core == v
    ensures |v| > 0 ==> |core| > 0
  {
    if ByteLen(v) > MIN_MATCH_DIGITS then
      var cut := SuffixFromByte(v, ByteLen(v) - MIN_MATCH_DIGITS);
      BoundaryCutSucceeds(v);
      if cut.Some? then
        SuffixFromByteIsSuffix(v, ByteLen(v) - MIN_MATCH_DIGITS);
        SuffixFromByteLength(v, ByteLen(v) - MIN_MATCH_DIGITS);
        cut.value
      else v
    else v
  }

  /** `get` succeeds exactly when the cut falls between characters. */
  lemma BoundaryCutSucceeds(v: string)
    requires ByteLen(v) > MIN_MATCH_DIGITS
    ensures SuffixFromByte(v, ByteLen(v) - MIN_MATCH_DIGITS).Some? <==> CutOnBoundary(v)
  {
    if CutOnBoundary(v) {
      var k :| 0 <= k <= |v| && BytesFrom(v, k) == MIN_MATCH_DIGITS;
      CutAtCharBoundary(v, k);
    }
    if SuffixFromByte(v, ByteLen(v) - MIN_MATCH_DIGITS).Some? {
      CutIsOnBoundary(v, ByteLen(v) - MIN_MATCH_DIGITS);
    }
  }

  /** The tail a successful cut keeps starts at a character boundary. */
  lemma CutIsOnBoundary(v: string, b: nat)
    requires b < ByteLen(v) && b + MIN_MATCH_DIGITS == ByteLen(v)
    requires SuffixFromByte(v, b).Some?
    ensures CutOnBoundary(v)
  {
    var t := SuffixFromByte(v, b).value;
    SuffixFromByteIsSuffix(v, b);
    SuffixFromByteLength(v, b);
    assert v[|v| - |t|..] == t;
    assert BytesFrom(v, |v| - |t|) == MIN_MATCH_DIGITS;
  }

  /** A successful cut keeps exactly the bytes after it, and so at least one character. */
  lemma {:induction false} SuffixFromByteLength(s: string, b: nat)
    requires b < ByteLen(s)
    requires SuffixFromByte(s, b).Some?
    ensures ByteLen(SuffixFromByte(s, b).value) == ByteLen(s) - b
    ensures |SuffixFromByte(s, b).value| > 0
  {
    if b != 0 {
      SuffixFromByteLength(s[1..], b - Utf8Width(s[0]));
    }
  }

  /** On ASCII values the core is the last `MIN_MATCH_DIGITS` characters, or the whole value. */
  lemma FuzzyCoreAscii(v: string)
    requires IsAscii(v)
    ensures FuzzyCore(v) == if |v| > MIN_MATCH_DIGITS then v[|v| - MIN_MATCH_DIGITS..] else v
  {
    AsciiBytesAreChars(v, if |v| > MIN_MATCH_DIGITS then |v| - MIN_MATCH_DIGITS else 0);
  }

  /**
   * The `FuzzyMatch` core as `find` writes it: when the cut falls inside a
   * character the core is empty. It differs from the corrected core exactly
   * for such a cut.
   */
  function FuzzyCoreAsWritten(v: string): (core: string)
    ensures core == FuzzyCore(v) || core == ""
    ensures core != FuzzyCore(v) <==> ByteLen(v) > MIN_MATCH_DIGITS && !CutOnBoundary(v)
  {
    if ByteLen(v) > MIN_MATCH_DIGITS then
      BoundaryCutSucceeds(v);
      SuffixFromByte(v, ByteLen(v) - MIN_MATCH_DIGITS).GetOr("")
    else v
  }

  // ---------------------------------------------------------------------
  // find
  // ---------------------------------------------------------------------

  /** Where `find` looks: a `contact_main` column, or the `category` rows of `contact_additional`. */
  datatype FindSource = MainColumn(column: string) | CategoryRows

  datatype OrderBy = OrderBy(column: string, keyword: string)

  /** The query `find` prepares: where it searches, the bound pattern and the ordering. */
  datatype FindQuery = FindQuery(source: FindSource, pattern: LikePattern, orderBy: Option<OrderBy>)

  function FindSourceOf(field: FilterByOption): (source: FindSource)
    ensures source.CategoryRows? <==> field == FilterByOption.Category
  {
    match field
    case Name => MainColumn("name")
    case GivenName => MainColumn("given_name")
    case FamilyName => MainColumn("family_name")
    case Email => MainColumn("email")
    case Tel => MainColumn("tel_number")
    case Category => CategoryRows
  }

  /** Tel and email are searched in a separator-delimited column. */
  predicate DelimitedColumn(field: FilterByOption) {
    field == FilterByOption.Email || field == FilterByOption.Tel
  }

  /** The pattern `find` binds, given how the fuzzy core is cut. */
  function FindPatternWith(field: FilterByOption, option: FilterOption, v: string, fuzzy: string): LikePattern {
    match option
    case StartsWith => if DelimitedColumn(field) then LikePattern(true, [SEP] + v, true) else LikePattern(false, v, true)
    case FuzzyMatch => LikePattern(true, fuzzy + [SEP], true)
    case Contains => LikePattern(true, v, true)
    case Equals => if DelimitedColumn(field) then LikePattern(true, [SEP] + v + [SEP], true) else LikePattern(false, v, false)
    case Match => LikePattern(false, "", false)
  }

  /** The pattern `find` binds. */
  function FindPattern(field: FilterByOption, option: FilterOption, v: string): LikePattern {
    FindPatternWith(field, option, v, FuzzyCore(v))
  }

  /** The SQL text of a pattern with wildcards on both sides, after, or neither. */
  lemma RenderShapes(core: string)
    ensures Render(LikePattern(true, core, true)) == "%" + core + "%"
    ensures Render(LikePattern(false, core, true)) == core + "%"
    ensures Render(LikePattern(true, core, false)) == "%" + core
    ensures Render(LikePattern(false, core, false)) == core
  {
    assert "" + core + "%" == core + "%";
    assert "%" + core + "" == "%" + core;
    assert "" + core + "" == core;
  }

  /** `StartsWith` binds `%\u{1E}v%` on tel and email, and `v%` on the other fields. */
  lemma FindStartsWithText(field: FilterByOption, v: string)
    ensures DelimitedColumn(field) ==> Render(FindPattern(field, StartsWith, v)) == "%" + [SEP] + v + "%"
    ensures !DelimitedColumn(field) ==> Render(FindPattern(field, StartsWith, v)) == v + "%"
  {
    RenderShapes([SEP] + v);
    RenderShapes(v);
    assert "%" + ([SEP] + v) + "%" == "%" + [SEP] + v + "%";
  }

  /** `Equals` binds `%\u{1E}v\u{1E}%` on tel and email, and `v` on the other fields. */
  lemma FindEqualsText(field: FilterByOption, v: string)
    ensures DelimitedColumn(field) ==> Render(FindPattern(field, Equals, v)) == "%" + [SEP] + v + [SEP] + "%"
    ensures !DelimitedColumn(field) ==> Render(FindPattern(field, Equals, v)) == v
  {
    RenderShapes([SEP] + v + [SEP]);
    RenderShapes(v);
    assert "%" + ([SEP] + v + [SEP]) + "%" == "%" + [SEP] + v + [SEP] + "%";
  }

  /**
   * `Contains` binds `%v%` on every field, `FuzzyMatch` `%core\u{1E}%`
   * and `Match` the empty pattern. As written, the `FuzzyMatch` core is
   * `FuzzyCoreAsWritten`: for a cut inside a character `find` binds
   * `%\u{1E}%`.
   */
  lemma FindOtherOptionsText(field: FilterByOption, v: string)
    ensures Render(FindPattern(field, Contains, v)) == "%" + v + "%"
    ensures Render(FindPattern(field, FuzzyMatch, v)) == "%" + FuzzyCore(v) + [SEP] + "%"
    ensures Render(FindPatternAsWritten(field, FuzzyMatch, v)) == "%" + FuzzyCoreAsWritten(v) + [SEP] + "%"
    ensures Render(FindPattern(field, Match, v)) == ""
  {
    RenderShapes(v);
    RenderShapes(FuzzyCore(v) + [SEP]);
    RenderShapes(FuzzyCoreAsWritten(v) + [SEP]);
    RenderShapes("");
    assert "%" + (FuzzyCore(v) + [SEP]) + "%" == "%" + FuzzyCore(v) + [SEP] + "%";
    assert "%" + (FuzzyCoreAsWritten(v) + [SEP]) + "%" == "%" + FuzzyCoreAsWritten(v) + [SEP] + "%";
  }

  /** For a cut inside a character, `find` binds `%\u{1E}%` whatever the field. */
  lemma FindFuzzyCutInsideText(field: FilterByOption, v: string)
    requires ByteLen(v) > MIN_MATCH_DIGITS && !CutOnBoundary(v)
    ensures Render(FindPatternAsWritten(field, FuzzyMatch, v)) == "%" + [SEP] + "%"
  {
    assert FuzzyCoreAsWritten(v) == "";
    var p := FindPatternAsWritten(field, FuzzyMatch, v);
    assert p == LikePattern(true, [SEP], true);
    RenderShapes([SEP]);
  }

  /** The pattern `find` binds as written, with the fuzzy core of `FuzzyCoreAsWritten`. */
  function FindPatternAsWritten(field: FilterByOption, option: FilterOption, v: string): (p: LikePattern)
    ensures option != FuzzyMatch ==> p == FindPattern(field, option, v)
  {
    FindPatternWith(field, option, v, FuzzyCoreAsWritten(v))
  }

  /**
   * The query `find` prepares: the column of the filter field, the pattern
   * of the filter option as `find` writes it, and an ordering by the sort
   * column with the sort order, except for categories, which are never
   * ordered. Only a `FuzzyMatch` whose cut falls inside a character binds
   * another pattern than the corrected one.
   */
  function FindQueryOf(options: ContactFindSortOptions): (q: FindQuery)
    ensures q.source == FindSourceOf(options.filterBy)
    ensures q.pattern == FindPatternAsWritten(options.filterBy, options.filterOption, options.filterValue)
    ensures q.pattern != FindPattern(options.filterBy, options.filterOption, options.filterValue) <==>
              options.filterOption == FuzzyMatch && ByteLen(options.filterValue) > MIN_MATCH_DIGITS &&
              !CutOnBoundary(options.filterValue)
    ensures q.orderBy.None? <==> options.filterBy == FilterByOption.Category
    ensures q.orderBy.Some? ==> q.orderBy.value == OrderBy(SortColumn(options.sortBy), OrderKeyword(options.sortOrder))
  {
    var column := SortColumn(options.sortBy);
    FindQuery(
      FindSourceOf(options.filterBy),
      FindPatternAsWritten(options.filterBy, options.filterOption, options.filterValue),
      if |column| > 0 && options.filterBy != FilterByOption.Category
      then Some(OrderBy(column, OrderKeyword(options.sortOrder)))
      else None)
  }

  // ---------------------------------------------------------------------
  // What the tel/email patterns select in a search column
  // ---------------------------------------------------------------------

  /** Every value followed by the delimiter. */
  function Delimited(vs: seq<string>, d: char): string {
    if |vs| == 0 then [] else vs[0] + [d] + Delimited(vs[1..], d)
  }

  predicate FreeOf(vs: seq<string>, d: char) {
    forall i :: 0 <= i < |vs| ==> d !in vs[i]
  }

  lemma {:induction false} JoinWithEmptyLast(vs: seq<string>, d: char)
    ensures Join(vs + [""], d) == Delimited(vs, d)
  {
    if |vs| > 0 {
      assert (vs + [""])[1..] == vs[1..] + [""];
      JoinWithEmptyLast(vs[1..], d);
    }
  }

  /** The search column is the separator, then every value followed by the separator. */
  lemma SearchColumnDelimited(vs: seq<string>)
    ensures SearchColumn(vs) == [SEP] + Delimited(vs, SEP)
  {
    assert ([""] + vs + [""])[1..] == vs + [""];
    JoinWithEmptyLast(vs, SEP);
  }

  /** The tail of a delimiter-free list is delimiter-free. */
  lemma FreeOfTail(vs: seq<string>, d: char)
    requires |vs| > 0 && FreeOf(vs, d)
    ensures FreeOf(vs[1..], d)
  {
    forall i | 0 <= i < |vs[1..]| ensures d !in vs[1..][i] { assert vs[1..][i] == vs[i + 1]; }
  }

  /**
   * The column opens with a delimiter, the first value and a delimiter;
   * no delimiter stands between the first two.
   */
  lemma ColumnHead(vs: seq<string>, d: char) returns (s: string)
    requires |vs| > 0 && FreeOf(vs, d)
    ensures s == [d] + Delimited(vs, d) == [d] + vs[0] + ([d] + Delimited(vs[1..], d))
    ensures s[0] == d && s[|vs[0]| + 1] == d
    ensures forall j :: 1 <= j <= |vs[0]| ==> s[j] == vs[0][j - 1] && s[j] != d
  {
    s := [d] + Delimited(vs, d);
    assert d !in vs[0];
  }

  /** A needle found at offset `k` of `s` is found at `k + |a|` of `a + s`. */
  lemma OccursShift(needle: string, a: string, s: string, k: nat)
    ensures OccursAt(needle, s, k) <==> OccursAt(needle, a + s, k + |a|)
  {
    if k + |needle| <= |s| {
      assert (a + s)[k + |a|..k + |a| + |needle|] == s[k..k + |needle|];
    }
  }

  /** `[d] + u + [d]` opening `[d] + w + t`, where `t` opens with `d`: `u` is `w`. */
  lemma EqualsAtBoundary(w: string, t: string, u: string, d: char)
    requires d !in w && d !in u && |t| > 0 && t[0] == d
    requires OccursAt([d] + u + [d], [d] + w + t, 0)
    ensures u == w
  {
    var s := [d] + w + t;
    var n := [d] + u + [d];
    assert s[..|n|] == n;
    assert forall j :: 1 <= j <= |w| ==> s[j] == w[j - 1];
    assert s[|w| + 1] == d;
    assert forall j :: 1 <= j <= |u| ==> n[j] == u[j - 1];
    assert n[|u| + 1] == d;
    assert forall j :: 0 <= j < |n| ==> s[j] == n[j];
    assert |u| == |w|;
    assert forall j :: 0 <= j < |u| ==> u[j] == n[j + 1] == s[j + 1] == w[j];
    assert u == w;
  }

  /** A needle opening with `d` lies at the start of the column or past its first value. */
  lemma NeedleAfterHead(vs: seq<string>, d: char, needle: string, k: nat) returns (s: string)
    requires |vs| > 0 && FreeOf(vs, d)
    requires |needle| > 0 && needle[0] == d
    requires OccursAt(needle, [d] + Delimited(vs, d), k)
    ensures s == [d] + Delimited(vs, d) == [d] + vs[0] + ([d] + Delimited(vs[1..], d))
    ensures k == 0 || k > |vs[0]|
  {
    s := ColumnHead(vs, d);
    assert s[k] == s[k..k + |needle|][0] == d;
  }

  /** `[d] + u + [d]` at offset `k` of a column: `u` is one of the values. */
  lemma {:induction false} EqualsNeedleSound(vs: seq<string>, u: string, d: char, k: nat)
    requires FreeOf(vs, d) && d !in u
    requires OccursAt([d] + u + [d], [d] + Delimited(vs, d), k)
    ensures u in vs
  {
    var needle := [d] + u + [d];
    if |vs| > 0 {
      var w := vs[0];
      var rest := [d] + Delimited(vs[1..], d);
      var s := NeedleAfterHead(vs, d, needle, k);
      if k == 0 {
        assert d !in w;
        EqualsAtBoundary(w, rest, u, d);
      } else {
        OccursShift(needle, [d] + w, rest, k - 1 - |w|);
        FreeOfTail(vs, d);
        EqualsNeedleSound(vs[1..], u, d, k - 1 - |w|);
      }
    }
  }

  /** Each value appears in the column with the delimiter on both sides. */
  lemma {:induction false} EqualsNeedleComplete(vs: seq<string>, i: nat, d: char) returns (k: nat)
    requires i < |vs|
    ensures OccursAt([d] + vs[i] + [d], [d] + Delimited(vs, d), k)
  {
    var w := vs[0];
    var rest := [d] + Delimited(vs[1..], d);
    assert [d] + Delimited(vs, d) == [d] + w + rest;
    if i == 0 {
      k := 0;
      assert ([d] + w + rest)[..|w| + 2] == [d] + w + [d];
    } else {
      var k' := EqualsNeedleComplete(vs[1..], i - 1, d);
      OccursShift([d] + vs[i] + [d], [d] + w, rest, k');
      k := k' + 1 + |w|;
    }
  }

  /** Every stored value appears in the search column with a separator on both sides. */
  lemma StoredValueDelimited(vs: seq<string>, i: nat)
    requires i < |vs|
    ensures exists k: nat :: OccursAt([SEP] + vs[i] + [SEP], SearchColumn(vs), k)
  {
    SearchColumnDelimited(vs);
    var k := EqualsNeedleComplete(vs, i, SEP);
  }

  /** A needle occurs wherever a needle it begins occurs. */
  lemma OccursPrefix(a: string, b: string, s: string, k: nat)
    requires OccursAt(a + b, s, k)
    ensures OccursAt(a, s, k)
  {
    assert s[k..k + |a|] == (a + b)[..|a|];
  }

  /** `[d] + u` opening `[d] + w + t`, where `t` opens with `d`: `u` begins `w`. */
  lemma StartsAtBoundary(w: string, t: string, u: string, d: char)
    requires d !in u && |t| > 0 && t[0] == d
    requires OccursAt([d] + u, [d] + w + t, 0)
    ensures u <= w
  {
    var s := [d] + w + t;
    var n := [d] + u;
    assert s[..|n|] == n;
    assert s[|w| + 1] == d;
    assert forall j :: 1 <= j <= |u| ==> n[j] == u[j - 1];
    assert forall j :: 0 <= j < |n| ==> s[j] == n[j];
    assert |u| <= |w|;
    assert forall j :: 0 <= j < |u| ==> w[j] == s[j + 1] == u[j];
  }

  /** `[d] + u` at offset `k` of a column: `u` begins one of the values (or is empty). */
  lemma {:induction false} StartsNeedleSound(vs: seq<string>, u: string, d: char, k: nat)
    requires FreeOf(vs, d) && d !in u
    requires OccursAt([d] + u, [d] + Delimited(vs, d), k)
    ensures u == "" || exists i :: 0 <= i < |vs| && u <= vs[i]
  {
    var needle := [d] + u;
    if |vs| > 0 {
      var w := vs[0];
      var rest := [d] + Delimited(vs[1..], d);
      var s := NeedleAfterHead(vs, d, needle, k);
      if k == 0 {
        StartsAtBoundary(w, rest, u, d);
        assert u <= vs[0];
      } else {
        OccursShift(needle, [d] + w, rest, k - 1 - |w|);
        FreeOfTail(vs, d);
        StartsNeedleSound(vs[1..], u, d, k - 1 - |w|);
        if u != "" {
          var i :| 0 <= i < |vs[1..]| && u <= vs[1..][i];
          assert u <= vs[i + 1];
        }
      }
    }
  }

  /**
   * `u + [d]`, with `u` not empty, at offset `k <= |w|` of `[d] + w + t`,
   * where `t` opens with `d`: `u` ends `w`.
   */
  lemma EndsAtBoundary(w: string, t: string, u: string, d: char, k: nat)
    requires d !in w && d !in u && |u| > 0 && |t| > 0 && t[0] == d && k <= |w|
    requires OccursAt(u + [d], [d] + w + t, k)
    ensures IsSuffix(u, w)
  {
    var s := [d] + w + t;
    var n := u + [d];
    assert s[k..k + |n|] == n;
    assert forall j :: 0 <= j < |n| ==> s[k + j] == n[j];
    assert forall j :: 1 <= j <= |w| ==> s[j] == w[j - 1];
    assert s[0] == d && s[|w| + 1] == d;
    assert n[0] == u[0] && n[|u|] == d;
    assert k > 0;
    assert forall j :: 0 <= j < |u| ==> s[k + j] == u[j];
    assert k + |u| == |w| + 1;
    assert forall j :: 0 <= j < |u| ==> w[k - 1 + j] == u[j];
    assert w[|w| - |u|..] == u;
  }

  /** `u + [d]` at offset `k` of a column: `u` ends one of the values (or is empty). */
  lemma {:induction false} EndsNeedleSound(vs: seq<string>, u: string, d: char, k: nat)
    requires FreeOf(vs, d) && d !in u
    requires OccursAt(u + [d], [d] + Delimited(vs, d), k)
    ensures u == "" || exists i :: 0 <= i < |vs| && IsSuffix(u, vs[i])
  {
    var needle := u + [d];
    if |vs| > 0 && u != "" {
      var w := vs[0];
      var rest := [d] + Delimited(vs[1..], d);
      var s := ColumnHead(vs, d);
      if k <= |w| {
        assert d !in w;
        EndsAtBoundary(w, rest, u, d, k);
        assert IsSuffix(u, vs[0]);
      } else {
        OccursShift(needle, [d] + w, rest, k - 1 - |w|);
        FreeOfTail(vs, d);
        EndsNeedleSound(vs[1..], u, d, k - 1 - |w|);
        var i :| 0 <= i < |vs[1..]| && IsSuffix(u, vs[1..][i]);
        assert IsSuffix(u, vs[i + 1]);
      }
    }
  }

  /**
   * `Equals` on tel or email selects exactly the contacts that have the
   * value among their tels or emails.
   */
  lemma EqualsSelectsStoredValue(vs: seq<string>, v: string, field: FilterByOption)
    requires DelimitedColumn(field)
    requires FreeOf(vs, SEP) && SEP !in v
    ensures PatternMatches(FindPattern(field, Equals, v), SearchColumn(vs)) <==> v in vs
  {
    SearchColumnDelimited(vs);
    var p := FindPattern(field, Equals, v);
    assert p.core == [SEP] + v + [SEP];
    if PatternMatches(p, SearchColumn(vs)) {
      var k: nat :| OccursAt(p.core, SearchColumn(vs), k);
      EqualsNeedleSound(vs, v, SEP, k);
    }
    if v in vs {
      var i :| 0 <= i < |vs| && vs[i] == v;
      var k := EqualsNeedleComplete(vs, i, SEP);
    }
  }

  /**
   * `StartsWith` on tel or email selects exactly the contacts with a tel
   * or email beginning with the value (every contact for the empty value).
   */
  lemma StartsWithSelectsPrefix(vs: seq<string>, v: string, field: FilterByOption)
    requires DelimitedColumn(field)
    requires FreeOf(vs, SEP) && SEP !in v
    ensures PatternMatches(FindPattern(field, StartsWith, v), SearchColumn(vs)) <==>
            v == "" || exists i :: 0 <= i < |vs| && v <= vs[i]
  {
    SearchColumnDelimited(vs);
    var col := SearchColumn(vs);
    var p := FindPattern(field, StartsWith, v);
    assert p.core == [SEP] + v;
    if PatternMatches(p, col) {
      var k: nat :| OccursAt(p.core, col, k);
      StartsNeedleSound(vs, v, SEP, k);
    }
    if v == "" {
      assert OccursAt(p.core, col, 0);
    } else if exists i :: 0 <= i < |vs| && v <= vs[i] {
      var i :| 0 <= i < |vs| && v <= vs[i];
      var k := StartsNeedleComplete(vs, i, v, SEP);
    }
  }

  /** The needle `[d] + u` where a value beginning with `u` begins. */
  lemma StartsNeedleComplete(vs: seq<string>, i: nat, u: string, d: char) returns (k: nat)
    requires i < |vs| && u <= vs[i]
    ensures OccursAt([d] + u, [d] + Delimited(vs, d), k)
  {
    var w := vs[i];
    k := EqualsNeedleComplete(vs, i, d);
    assert [d] + w + [d] == ([d] + u) + (w[|u|..] + [d]) by {
      assert w[..|u|] == u;
      assert w == u + w[|u|..];
    }
    OccursPrefix([d] + u, w[|u|..] + [d], [d] + Delimited(vs, d), k);
  }

  /** The needle `u + [d]` where a value ending in `u` ends. */
  lemma EndsNeedleComplete(vs: seq<string>, i: nat, u: string, d: char) returns (k: nat)
    requires i < |vs| && IsSuffix(u, vs[i])
    ensures OccursAt(u + [d], [d] + Delimited(vs, d), k)
  {
    var w := vs[i];
    var k0 := EqualsNeedleComplete(vs, i, d);
    var s := [d] + Delimited(vs, d);
    k := k0 + 1 + |w| - |u|;
    assert s[k0..k0 + |w| + 2] == [d] + w + [d];
    assert s[k..k + |u| + 1] == ([d] + w + [d])[1 + |w| - |u|..];
    assert ([d] + w + [d])[1 + |w| - |u|..] == w[|w| - |u|..] + [d];
  }

  /**
   * A `%u\u{1E}%` pattern on a search column selects exactly the columns
   * with a value ending in `u` (every column when `u` is empty).
   */
  lemma FuzzyPatternSelects(vs: seq<string>, u: string)
    requires FreeOf(vs, SEP) && SEP !in u
    ensures PatternMatches(LikePattern(true, u + [SEP], true), SearchColumn(vs)) <==>
            u == "" || exists i :: 0 <= i < |vs| && IsSuffix(u, vs[i])
  {
    SearchColumnDelimited(vs);
    var col := SearchColumn(vs);
    var p := LikePattern(true, u + [SEP], true);
    if PatternMatches(p, col) {
      var k: nat :| OccursAt(p.core, col, k);
      EndsNeedleSound(vs, u, SEP, k);
    }
    if u == "" {
      assert OccursAt(p.core, col, 0);
    } else if exists i :: 0 <= i < |vs| && IsSuffix(u, vs[i]) {
      var i :| 0 <= i < |vs| && IsSuffix(u, vs[i]);
      var k := EndsNeedleComplete(vs, i, u, SEP);
    }
  }

  /** A suffix of a separator-free value is separator-free. */
  lemma SuffixFreeOfSep(u: string, v: string)
    requires IsSuffix(u, v) && SEP !in v
    ensures SEP !in u
  {
    forall j | 0 <= j < |u| ensures u[j] != SEP { assert u[j] == v[|v| - |u| + j]; }
  }

  /**
   * `FuzzyMatch` on tel selects exactly the contacts with a tel ending in
   * the fuzzy core.
   */
  lemma FuzzyMatchSelectsSuffix(vs: seq<string>, v: string)
    requires FreeOf(vs, SEP) && SEP !in v
    ensures PatternMatches(FindPattern(FilterByOption.Tel, FuzzyMatch, v), SearchColumn(vs)) <==>
            FuzzyCore(v) == "" || exists i :: 0 <= i < |vs| && IsSuffix(FuzzyCore(v), vs[i])
  {
    SuffixFreeOfSep(FuzzyCore(v), v);
    FuzzyPatternSelects(vs, FuzzyCore(v));
  }

  /**
   * `FuzzyMatch` on tel as `find` writes it: a cut between characters
   * selects the tels ending in the core, and a cut inside a character
   * selects every contact.
   */
  lemma FuzzyMatchAsWrittenSelects(vs: seq<string>, v: string)
    requires FreeOf(vs, SEP) && SEP !in v
    ensures ByteLen(v) > MIN_MATCH_DIGITS && !CutOnBoundary(v) ==>
              PatternMatches(FindPatternAsWritten(FilterByOption.Tel, FuzzyMatch, v), SearchColumn(vs))
    ensures !(ByteLen(v) > MIN_MATCH_DIGITS && !CutOnBoundary(v)) ==>
              (PatternMatches(FindPatternAsWritten(FilterByOption.Tel, FuzzyMatch, v), SearchColumn(vs)) <==>
               PatternMatches(FindPattern(FilterByOption.Tel, FuzzyMatch, v), SearchColumn(vs)))
  {
    var u := FuzzyCoreAsWritten(v);
    if u != "" {
      SuffixFreeOfSep(FuzzyCore(v), v);
    }
    FuzzyPatternSelects(vs, u);
  }

  /**
   * A delimiter-free needle found at `k <= |w|` of `[d] + w + t`, where `t`
   * opens with `d`, lies inside `w`.
   */
  lemma InsideFirstValue(w: string, t: string, u: string, d: char, k: nat)
    requires d !in u && |u| > 0 && |t| > 0 && t[0] == d && 0 < k <= |w| + 1
    requires OccursAt(u, [d] + w + t, k)
    ensures OccursAt(u, w, k - 1)
  {
    var s := [d] + w + t;
    assert forall j :: 0 <= j < |u| ==> s[k + j] == u[j];
    assert s[|w| + 1] == d;
    assert k + |u| <= |w| + 1;
    forall j | 0 <= j < |u| ensures w[k - 1..k - 1 + |u|][j] == u[j] {
      assert s[k + j] == w[k - 1 + j];
    }
  }

  /** `u` occurs inside one of the values. */
  ghost predicate OccursInSome(u: string, vs: seq<string>) {
    exists i: nat, j: nat :: i < |vs| && OccursAt(u, vs[i], j)
  }

  /** A delimiter-free needle in a column occurs inside one of the values. */
  lemma {:induction false} ContainsNeedleSound(vs: seq<string>, u: string, d: char, k: nat)
    requires FreeOf(vs, d) && d !in u && |u| > 0
    requires OccursAt(u, [d] + Delimited(vs, d), k)
    ensures OccursInSome(u, vs)
  {
    var s := [d] + Delimited(vs, d);
    assert s[k] == u[0];
    if |vs| > 0 {
      var w := vs[0];
      var rest := [d] + Delimited(vs[1..], d);
      var _ := ColumnHead(vs, d);
      if k <= |w| + 1 {
        assert k != 0 && k != |w| + 1;
        InsideFirstValue(w, rest, u, d, k);
        assert OccursAt(u, vs[0], k - 1);
      } else {
        OccursShift(u, [d] + w, rest, k - 1 - |w|);
        FreeOfTail(vs, d);
        ContainsNeedleSound(vs[1..], u, d, k - 1 - |w|);
        var i: nat, j: nat :| i < |vs[1..]| && OccursAt(u, vs[1..][i], j);
        assert OccursAt(u, vs[i + 1], j);
      }
    }
  }

  /** A needle inside a value occurs in the column. */
  lemma ContainsNeedleComplete(vs: seq<string>, i: nat, u: string, j: nat, d: char) returns (k: nat)
    requires i < |vs| && OccursAt(u, vs[i], j)
    ensures OccursAt(u, [d] + Delimited(vs, d), k)
  {
    var w := vs[i];
    var k0 := EqualsNeedleComplete(vs, i, d);
    var s := [d] + Delimited(vs, d);
    k := k0 + 1 + j;
    var around := [d] + w + [d];
    assert s[k0..k0 + |w| + 2] == around;
    assert w[j..j + |u|] == u;
    forall t | 0 <= t < |u| ensures s[k..k + |u|][t] == u[t] {
      assert s[k + t] == s[k0..k0 + |w| + 2][1 + j + t] == around[1 + j + t] == w[j + t];
    }
  }

  /**
   * `Contains` on tel or email selects exactly the contacts with a tel or
   * email the value occurs in (every contact for the empty value).
   */
  lemma ContainsSelectsSubstring(vs: seq<string>, v: string, field: FilterByOption)
    requires DelimitedColumn(field)
    requires FreeOf(vs, SEP) && SEP !in v
    ensures PatternMatches(FindPattern(field, Contains, v), SearchColumn(vs)) <==>
            v == "" || OccursInSome(v, vs)
  {
    SearchColumnDelimited(vs);
    var col := SearchColumn(vs);
    var p := FindPattern(field, Contains, v);
    assert p.core == v;
    if v == "" {
      assert OccursAt(p.core, col, 0);
    } else {
      if PatternMatches(p, col) {
        var k: nat :| OccursAt(v, col, k);
        ContainsNeedleSound(vs, v, SEP, k);
      }
      if OccursInSome(v, vs) {
        var i: nat, j: nat :| i < |vs| && OccursAt(v, vs[i], j);
        var k := ContainsNeedleComplete(vs, i, v, j, SEP);
      }
    }
  }

  /** On name fields, `StartsWith` selects the names beginning with the value and `Equals` the name itself. */
  lemma NameFieldPatterns(field: FilterByOption, v: string, text: string)
    requires !DelimitedColumn(field)
    ensures PatternMatches(FindPattern(field, StartsWith, v), text) <==> v <= text
    ensures PatternMatches(FindPattern(field, Equals, v), text) <==> text == v
  {
  }

  // ---------------------------------------------------------------------
  // The FuzzyMatch cut inside a character
  // ---------------------------------------------------------------------

  /** A tel whose last-7-bytes cut falls inside the euro sign. */
  const CUT_INSIDE_CHAR: string := "1€234567"

  /**
   * As written, `find` turns the value into the empty core, and its
   * `FuzzyMatch` pattern then selects every contact, whatever its tels;
   * the corrected core keeps the whole value, as `find_blocked_numbers` does.
   */
  lemma FuzzyCutInsideCharacter(vs: seq<string>)
    ensures ByteLen(CUT_INSIDE_CHAR) == 10
    ensures FuzzyCoreAsWritten(CUT_INSIDE_CHAR) == ""
    ensures PatternMatches(FindPatternAsWritten(FilterByOption.Tel, FuzzyMatch, CUT_INSIDE_CHAR), SearchColumn(vs))
    ensures FuzzyCore(CUT_INSIDE_CHAR) == CUT_INSIDE_CHAR
  {
    var v := CUT_INSIDE_CHAR;
    assert v[1..] == "€234567";
    assert v[1..][1..] == "234567";
    assert ByteLen("234567") == 6 by {
      assert IsAscii("234567");
      AsciiBytesAreChars("234567", 0);
    }
    assert ByteLen(v[1..]) == 9;
    assert SuffixFromByte(v, 3) == SuffixFromByte(v[1..], 2) == None;
    SearchColumnDelimited(vs);
    var p := FindPatternAsWritten(FilterByOption.Tel, FuzzyMatch, v);
    assert p.core == [SEP];
    assert OccursAt(p.core, SearchColumn(vs), 0);
  }

  // ---------------------------------------------------------------------
  // find_blocked_numbers
  // ---------------------------------------------------------------------

  /**
   * The pattern `find_blocked_numbers` binds against the `number` column:
   * `v%`, `%core`, `%v%` or `v`; `Match` is refused.
   */
  function BlockedNumberPattern(options: BlockedNumberFindOptions): (r: Result<LikePattern, Error>)
    ensures r.Err? <==> options.filterOption == Match
    ensures r.Err? ==> r.error == InvalidFilterOption("Match")
  {
    var v := options.filterValue;
    match options.filterOption
    case StartsWith => Ok(LikePattern(false, v, true))
    case FuzzyMatch => Ok(LikePattern(true, FuzzyCore(v), false))
    case Contains => Ok(LikePattern(true, v, true))
    case Equals => Ok(LikePattern(false, v, false))
    case Match => Err(InvalidFilterOption("Match"))
  }

  /**
   * What each blocked-number pattern selects: the numbers starting with,
   * ending with the fuzzy core of, containing, or equal to the value.
   */
  lemma BlockedNumberPatternsSelect(v: string, option: FilterOption, number: string)
    requires option != Match
    ensures var r := BlockedNumberPattern(BlockedNumberFindOptions(v, option));
      && r.Ok?
      && (PatternMatches(r.value, number) <==>
           match option
           case StartsWith => v <= number
           case FuzzyMatch => IsSuffix(FuzzyCore(v), number)
           case Contains => exists k: nat :: OccursAt(v, number, k)
           case Equals => number == v
           case Match => false)
  {
  }

  /** A blocked number always matches its own fuzzy pattern. */
  lemma BlockedFuzzyMatchesItself(v: string)
    ensures PatternMatches(BlockedNumberPattern(BlockedNumberFindOptions(v, FuzzyMatch)).value, v)
  {
  }
}
