/**
 * The form configuration endpoint (src/app/api/config/route.ts): reading
 * schedule lists in the shapes they may be stored in, the GET reply with a
 * default for every missing field, and the PUT payload.
 */
module ConfigRoute {
  import opened Wrappers
  import opened JsString
  import opened Seqs
  import FormDefaults
  import AdminAuth

  /**
   * A `schedules` value by JavaScript type: an array (each element in its
   * `String(item)` form), a string, or anything else.
   */
  datatype Raw = RawArray(items: seq<string>) | RawString(text: string) | RawOther

  /**
   * `JSON.parse(text)` when it succeeds with an array, elements in their
   * `String(item)` form; `None` when it throws or yields anything else.
   */
  type JsonArrays = string -> Option<seq<string>>

  predicate NonEmpty(s: string) {
    s != ""
  }

  /** `items.map((item) => String(item).trim()).filter(Boolean)`. */
  function TrimNonEmpty(items: seq<string>): (r: seq<string>)
    ensures forall i :: 0 <= i < |r| ==> r[i] != "" && IsTrimmed(r[i])
  {
    Filter(Map(items, Trim), NonEmpty)
  }

  /** The result keeps the order of the trimmed items and drops exactly the empty ones. */
  lemma TrimNonEmptyKeeps(items: seq<string>, x: string)
    ensures SubsequenceOf(TrimNonEmpty(items), Map(items, Trim))
    ensures multiset(TrimNonEmpty(items))[x] == if x == "" then 0 else multiset(Map(items, Trim))[x]
  {
    FilterSubsequence(Map(items, Trim), NonEmpty);
    FilterCount(Map(items, Trim), NonEmpty, x);
  }

  /** A list of non-empty trimmed entries passes through unchanged. */
  lemma TrimNonEmptyClean(items: seq<string>)
    requires forall i :: 0 <= i < |items| ==> items[i] != "" && IsTrimmed(items[i])
    ensures TrimNonEmpty(items) == items
  {
    forall i | 0 <= i < |items| ensures Trim(items[i]) == items[i] {
      TrimTrimmed(items[i]);
    }
    assert Map(items, Trim) == items;
    FilterAll(items, NonEmpty);
  }

  predicate IsSeparator(c: char) {
    c == '\n' || c == ','
  }

  predicate NotSeparator(c: char) {
    !IsSeparator(c)
  }

  predicate SeparatorFree(p: string) {
    forall k :: 0 <= k < |p| ==> !IsSeparator(p[k])
  }

  /** The first separator at or after `i`, or `|s|`. */
  function NextSeparator(s: string, i: nat): (j: nat)
    requires i <= |s|
    ensures i <= j <= |s|
    ensures forall k :: i <= k < j ==> !IsSeparator(s[k])
    ensures j == |s| || IsSeparator(s[j])
    decreases |s| - i
  {
    if i == |s| || IsSeparator(s[i]) then i else NextSeparator(s, i + 1)
  }

  /** The end of the run of separators that starts at `i`. */
  function SkipSeparators(s: string, i: nat): (j: nat)
    requires i <= |s|
    ensures i <= j <= |s|
    ensures forall k :: i <= k < j ==> IsSeparator(s[k])
    ensures j == |s| || !IsSeparator(s[j])
    decreases |s| - i
  {
    if i < |s| && IsSeparator(s[i]) then SkipSeparators(s, i + 1) else i
  }

  /** `s.slice(i).split(/[\n,]+/)`: the pieces between runs of newlines and commas. */
  function SplitFrom(s: string, i: nat): (r: seq<string>)
    requires i <= |s|
    ensures |r| >= 1
    ensures forall n :: 0 <= n < |r| ==> SeparatorFree(r[n])
    decreases |s| - i
  {
    var k := NextSeparator(s, i);
    if k == |s| then [s[i..]]
    else
      var rest := SplitFrom(s, SkipSeparators(s, k));
      [s[i..k]] + rest
  }

  /** `s.split(/[\n,]+/)`. */
  function SplitRuns(s: string): (r: seq<string>)
    ensures |r| >= 1
    ensures forall n :: 0 <= n < |r| ==> SeparatorFree(r[n])
    ensures SplitShape(r, SeparatorRunsFrom(s, 0)) && Interleave(r, SeparatorRunsFrom(s, 0)) == s
  {
    SplitFromDecomposes(s, 0);
    assert s[0..] == s;
    SplitFrom(s, 0)
  }

  /** Any cut of `s` into that shape is `s.split(/[\n,]+/)`. */
  lemma SplitRunsUnique(s: string, pieces: seq<string>, runs: seq<string>)
    requires SplitShape(pieces, runs) && Interleave(pieces, runs) == s
    ensures pieces == SplitRuns(s)
  {
    assert s[0..] == s;
    SplitFromUnique(s, 0, pieces, runs);
  }

  /** The runs of separators that `SplitFrom(s, i)` cuts at, in order. */
  function SeparatorRunsFrom(s: string, i: nat): (r: seq<string>)
    requires i <= |s|
    decreases |s| - i
  {
    var k := NextSeparator(s, i);
    if k == |s| then []
    else
      var j := SkipSeparators(s, k);
      [s[k..j]] + SeparatorRunsFrom(s, j)
  }

  /** The pieces with a run between each two: `pieces[0] + runs[0] + pieces[1] + ...`. */
  function Interleave(pieces: seq<string>, runs: seq<string>): string
    requires |pieces| == |runs| + 1
    decreases |runs|
  {
    if runs == [] then pieces[0] else pieces[0] + runs[0] + Interleave(pieces[1..], runs[1..])
  }

  /**
   * What `split(/[\n,]+/)` produces: pieces without separators, cut at
   * non-empty runs of separators, where every piece between two runs is
   * non-empty (the pattern is greedy, so two runs never touch).
   */
  predicate SplitShape(pieces: seq<string>, runs: seq<string>) {
    && |pieces| == |runs| + 1
    && (forall n :: 0 <= n < |pieces| ==> SeparatorFree(pieces[n]))
    && (forall n :: 0 <= n < |runs| ==> SeparatorRun(runs[n]))
    && (forall n :: 0 < n < |runs| ==> pieces[n] != "")
  }

  /** A non-empty run of newlines and commas. */
  predicate SeparatorRun(r: string) {
    r != "" && forall k :: 0 <= k < |r| ==> IsSeparator(r[k])
  }

  /** The split, with its runs, has that shape and puts the text back together. */
  lemma {:induction false} SplitFromDecomposes(s: string, i: nat)
    requires i <= |s|
    ensures SplitShape(SplitFrom(s, i), SeparatorRunsFrom(s, i))
    ensures Interleave(SplitFrom(s, i), SeparatorRunsFrom(s, i)) == s[i..]
    decreases |s| - i
  {
    var k := NextSeparator(s, i);
    if k < |s| {
      SplitFromDecomposes(s, SkipSeparators(s, k));
      DecomposeStep(s, i);
    }
  }

  /** The first piece and run of the split, in front of the decomposition of the rest. */
  lemma DecomposeStep(s: string, i: nat)
    requires i <= |s| && NextSeparator(s, i) < |s|
    requires var j := SkipSeparators(s, NextSeparator(s, i));
      && SplitShape(SplitFrom(s, j), SeparatorRunsFrom(s, j))
      && Interleave(SplitFrom(s, j), SeparatorRunsFrom(s, j)) == s[j..]
    ensures SplitShape(SplitFrom(s, i), SeparatorRunsFrom(s, i))
    ensures Interleave(SplitFrom(s, i), SeparatorRunsFrom(s, i)) == s[i..]
  {
    var k := NextSeparator(s, i);
    var j := SkipSeparators(s, k);
    SplitFromCons(s, i);
    PieceAndRun(s, i);
    FirstPieceNonEmpty(s, j);
    ShapeCons(s[i..k], s[k..j], SplitFrom(s, j), SeparatorRunsFrom(s, j));
    JoinThree(s, i, k, j);
  }

  /** After a run of separators, a piece follows that is non-empty unless it is the last. */
  lemma FirstPieceNonEmpty(s: string, j: nat)
    requires j <= |s| && (j == |s| || !IsSeparator(s[j]))
    ensures SeparatorRunsFrom(s, j) != [] ==> SplitFrom(s, j)[0] != ""
  {
    if SeparatorRunsFrom(s, j) != [] {
      SplitFromCons(s, j);
    }
  }

  /** Cutting `s[i..]` at `k` and `j` and joining the parts gives it back. */
  lemma JoinThree(s: string, i: nat, k: nat, j: nat)
    requires i <= k <= j <= |s|
    ensures s[i..] == s[i..k] + s[k..j] + s[j..]
  {
  }

  /** The text up to the next separator is separator-free, and the run after it is a run. */
  lemma PieceAndRun(s: string, i: nat)
    requires i <= |s| && NextSeparator(s, i) < |s|
    ensures var k := NextSeparator(s, i);
      SeparatorFree(s[i..k]) && SeparatorRun(s[k..SkipSeparators(s, k)])
  {
    var k := NextSeparator(s, i);
    var j := SkipSeparators(s, k);
    assert forall t :: 0 <= t < k - i ==> s[i..k][t] == s[i + t];
    assert forall t :: 0 <= t < j - k ==> s[k..j][t] == s[k + t];
  }

  /** A separator-free piece and a run in front of a split keep its shape. */
  lemma ShapeCons(p0: string, r0: string, pieces: seq<string>, runs: seq<string>)
    requires SplitShape(pieces, runs)
    requires SeparatorFree(p0) && SeparatorRun(r0)
    requires |runs| > 0 ==> pieces[0] != ""
    ensures SplitShape([p0] + pieces, [r0] + runs)
    ensures Interleave([p0] + pieces, [r0] + runs) == p0 + r0 + Interleave(pieces, runs)
  {
    assert ([p0] + pieces)[1..] == pieces;
    assert ([r0] + runs)[1..] == runs;
  }


  /** `split(/[\n,]+/)` is the only way to cut `s` into that shape. */
  lemma {:induction false} SplitFromUnique(s: string, i: nat, pieces: seq<string>, runs: seq<string>)
    requires i <= |s|
    requires SplitShape(pieces, runs) && Interleave(pieces, runs) == s[i..]
    ensures pieces == SplitFrom(s, i)
    decreases |runs|
  {
    if runs == [] {
      NextSeparatorAt(s, i, |s|);
    } else {
      var j := UniqueStep(s, i, pieces, runs);
      SplitFromUnique(s, j, pieces[1..], runs[1..]);
      UniqueJoin(s, i, j, pieces);
    }
  }

  /**
   * The first piece and run of a shaped cut are where `SplitFrom` finds
   * them; `j` is where the rest of the cut starts.
   */
  lemma UniqueStep(s: string, i: nat, pieces: seq<string>, runs: seq<string>) returns (j: nat)
    requires i <= |s|
    requires SplitShape(pieces, runs) && runs != [] && Interleave(pieces, runs) == s[i..]
    ensures j <= |s|
    ensures NextSeparator(s, i) == i + |pieces[0]| < |s|
    ensures SkipSeparators(s, i + |pieces[0]|) == j
    ensures s[i..i + |pieces[0]|] == pieces[0]
    ensures SplitShape(pieces[1..], runs[1..]) && Interleave(pieces[1..], runs[1..]) == s[j..]
  {
    var p0 := pieces[0];
    var r0 := runs[0];
    var tail := Interleave(pieces[1..], runs[1..]);
    var e := i + |p0|;
    j := e + |r0|;
    CutThree(s, i, p0, r0, tail);
    NextSeparatorAt(s, i, e);
    if j < |s| {
      assert pieces[1] != "";
      assert s[j] == tail[0] == pieces[1][0];
    }
    SkipSeparatorsAt(s, e, j);
  }

  /** The first piece in front of the split of the rest is the split. */
  lemma UniqueJoin(s: string, i: nat, j: nat, pieces: seq<string>)
    requires i <= |s| && |pieces| >= 1
    requires NextSeparator(s, i) == i + |pieces[0]| < |s|
    requires SkipSeparators(s, i + |pieces[0]|) == j
    requires s[i..i + |pieces[0]|] == pieces[0] && pieces[1..] == SplitFrom(s, j)
    ensures pieces == SplitFrom(s, i)
  {
    assert pieces == [pieces[0]] + pieces[1..];
  }

  /** One step of `SplitFrom` and `SeparatorRunsFrom` past a separator. */
  lemma SplitFromCons(s: string, i: nat)
    requires i <= |s| && NextSeparator(s, i) < |s|
    ensures var k := NextSeparator(s, i);
      var j := SkipSeparators(s, k);
      && SplitFrom(s, i) == [s[i..k]] + SplitFrom(s, j)
      && SeparatorRunsFrom(s, i) == [s[k..j]] + SeparatorRunsFrom(s, j)
  {
  }

  /** Where the three parts of `s[i..] == a + b + c` sit in `s`. */
  lemma CutThree(s: string, i: nat, a: string, b: string, c: string)
    requires i <= |s| && s[i..] == a + b + c
    ensures i + |a| + |b| <= |s|
    ensures s[i..i + |a|] == a
    ensures s[i + |a|..i + |a| + |b|] == b
    ensures s[i + |a| + |b|..] == c
  {
    assert s[i..][..|a|] == a;
    assert s[i..][|a|..|a| + |b|] == b;
    assert s[i..][|a| + |b|..] == c;
  }

  /** `NextSeparator` stops at the first separator. */
  lemma NextSeparatorAt(s: string, i: nat, e: nat)
    requires i <= e <= |s|
    requires forall k :: i <= k < e ==> !IsSeparator(s[k])
    requires e == |s| || IsSeparator(s[e])
    ensures NextSeparator(s, i) == e
  {
  }

  /** `SkipSeparators` stops at the first non-separator. */
  lemma SkipSeparatorsAt(s: string, k: nat, j: nat)
    requires k <= j <= |s|
    requires forall t :: k <= t < j ==> IsSeparator(s[t])
    requires j == |s| || !IsSeparator(s[j])
    ensures SkipSeparators(s, k) == j
  {
  }

  /** The pieces laid end to end. */
  function Concat(pieces: seq<string>): string {
    if pieces == [] then [] else pieces[0] + Concat(pieces[1..])
  }

  /** Splitting loses the separators and nothing else: the pieces, joined, are the text without them. */
  lemma {:induction false} SplitFromLoses(s: string, i: nat)
    requires i <= |s|
    ensures Concat(SplitFrom(s, i)) == Filter(s[i..], NotSeparator)
    decreases |s| - i
  {
    var k := NextSeparator(s, i);
    if k == |s| {
      FilterAll(s[i..], NotSeparator);
      assert Concat([s[i..]]) == s[i..] + Concat([]);
    } else {
      var j := SkipSeparators(s, k);
      SplitFromLoses(s, j);
      SplitStep(s, i);
      FilterStep(s, i);
    }
  }

  /** Filtering drops the run of separators after the first piece. */
  lemma FilterStep(s: string, i: nat)
    requires i <= |s| && NextSeparator(s, i) < |s|
    ensures var k := NextSeparator(s, i);
      Filter(s[i..], NotSeparator) == s[i..k] + Filter(s[SkipSeparators(s, k)..], NotSeparator)
  {
    var k := NextSeparator(s, i);
    var j := SkipSeparators(s, k);
    assert s[i..] == s[i..k] + s[k..j] + s[j..];
    FilterPieces(s[i..k], s[k..j], s[j..]);
  }

  /** A piece that ends at a separator is followed by the pieces after the run. */
  lemma SplitStep(s: string, i: nat)
    requires i <= |s| && NextSeparator(s, i) < |s|
    ensures var k := NextSeparator(s, i);
      Concat(SplitFrom(s, i)) == s[i..k] + Concat(SplitFrom(s, SkipSeparators(s, k)))
  {
    var pieces := SplitFrom(s, i);
    assert pieces[0] == s[i..NextSeparator(s, i)];
    assert pieces[1..] == SplitFrom(s, SkipSeparators(s, NextSeparator(s, i)));
  }

  /** A separator-free piece, a run of separators, then the rest. */
  lemma FilterPieces(a: string, b: string, c: string)
    requires forall k :: 0 <= k < |a| ==> NotSeparator(a[k])
    requires forall k :: 0 <= k < |b| ==> !NotSeparator(b[k])
    ensures Filter(a + b + c, NotSeparator) == a + Filter(c, NotSeparator)
  {
    FilterAll(a, NotSeparator);
    FilterNone(b, NotSeparator);
    FilterConcat(a, b, NotSeparator);
    assert Filter(a + b, NotSeparator) == a + [] == a;
    FilterConcat(a + b, c, NotSeparator);
  }

  /** `normalizeSchedules(value)`. */
  function NormalizeSchedules(v: Raw, json: JsonArrays): (r: seq<string>)
    ensures forall i :: 0 <= i < |r| ==> r[i] != "" && IsTrimmed(r[i])
    ensures v.RawOther? ==> r == []
    ensures v.RawArray? ==> r == TrimNonEmpty(v.items)
    ensures v.RawString? && json(v.text).Some? ==> r == TrimNonEmpty(json(v.text).value)
    ensures v.RawString? && json(v.text).None? ==> r == TrimNonEmpty(SplitRuns(v.text))
    ensures v.RawString? && json(v.text).None?
      ==> forall n :: 0 <= n < |r| ==> SeparatorFree(r[n])
  {
    match v
    case RawArray(items) => TrimNonEmpty(items)
    case RawString(text) =>
      (match json(text)
       case Some(items) => TrimNonEmpty(items)
       case None =>
         var pieces := SplitRuns(text);
         TrimKeepsSeparatorFree(pieces);
         TrimNonEmpty(pieces))
    case RawOther => []
  }

  /** Trimming separator-free pieces leaves them separator-free. */
  lemma TrimKeepsSeparatorFree(pieces: seq<string>)
    requires forall n :: 0 <= n < |pieces| ==> SeparatorFree(pieces[n])
    ensures var r := TrimNonEmpty(pieces);
      forall n :: 0 <= n < |r| ==> SeparatorFree(r[n])
  {
    var trimmed := Map(pieces, Trim);
    forall n, k | 0 <= n < |trimmed| && 0 <= k < |trimmed[n]| ensures !IsSeparator(trimmed[n][k]) {
      var a := SkipSpaces(pieces[n], 0);
      assert trimmed[n][k] == pieces[n][a + k];
    }
    var r := TrimNonEmpty(pieces);
    forall n | 0 <= n < |r| ensures SeparatorFree(r[n]) {
      FilterMember(trimmed, NonEmpty, r[n]);
    }
  }

  /** Normalising a normalised list changes nothing. */
  lemma NormalizeIdempotent(v: Raw, json: JsonArrays)
    ensures var once := NormalizeSchedules(v, json);
      NormalizeSchedules(RawArray(once), json) == once
  {
    TrimNonEmptyClean(NormalizeSchedules(v, json));
  }

  /** A text that is neither JSON nor separated is one entry, trimmed. */
  lemma SingleEntry(text: string, json: JsonArrays)
    requires json(text).None?
    requires forall k :: 0 <= k < |text| ==> !IsSeparator(text[k])
    requires Trim(text) != ""
    ensures NormalizeSchedules(RawString(text), json) == [Trim(text)]
  {
    assert NextSeparator(text, 0) == |text|;
    assert text[0..] == text;
    assert Map([text], Trim) == [Trim(text)];
  }

  /** A run of several separators makes one cut: "A,\nB" holds the two entries "A" and "B". */
  lemma SeparatorRunExample(text: string, json: JsonArrays)
    requires text == "A,\nB" && json(text).None?
    ensures NormalizeSchedules(RawString(text), json) == ["A", "B"]
  {
    var pieces := ["A", "B"];
    var runs := [",\n"];
    assert Interleave(pieces, runs) == text;
    assert SplitShape(pieces, runs);
    SplitRunsUnique(text, pieces, runs);
    assert IsTrimmed("A") && IsTrimmed("B");
    TrimNonEmptyClean(pieces);
  }

  // --------------------------------------------------------------- GET

  /** The newest `form_config` row; a null column is `None`. */
  datatype StoredConfig = StoredConfig(
    schedules: Raw,
    details: Option<string>,
    bankName: Option<string>,
    accountNumber: Option<string>,
    depositor: Option<string>,
    price: Option<string>,
    updatedAt: Option<string>)

  /** The JSON object GET replies with. */
  datatype ConfigView = ConfigView(
    schedules: seq<string>,
    details: string,
    bankName: string,
    accountNumber: string,
    depositor: string,
    price: string,
    updatedAt: Option<string>)

  /** `shown` is the stored text when that is truthy, and `fallback` otherwise. */
  predicate FallsBack(stored: Option<string>, shown: string, fallback: string) {
    (Truthy(stored) ==> shown == stored.value) && (!Truthy(stored) ==> shown == fallback)
  }

  /** The text columns of a stored row. */
  datatype TextColumn = Details | BankName | AccountNumber | Depositor | Price | UpdatedAt

  /** `record?.<column>`: the column of the row, `None` when there is no row. */
  function Column(record: Option<StoredConfig>, column: TextColumn): (r: Option<string>)
    ensures record.None? ==> r.None?
  {
    if record.None? then None
    else
      match column
      case Details => record.value.details
      case BankName => record.value.bankName
      case AccountNumber => record.value.accountNumber
      case Depositor => record.value.depositor
      case Price => record.value.price
      case UpdatedAt => record.value.updatedAt
  }

  /** `normalizeSchedules(record?.schedules)`. */
  function StoredSchedules(record: Option<StoredConfig>, json: JsonArrays): (r: seq<string>)
    ensures record.None? ==> r == []
  {
    NormalizeSchedules(if record.Some? then record.value.schedules else RawOther, json)
  }

  /** `GET`: `record` is the newest row, or `None` when the query fails or finds none. */
  function GetConfig(record: Option<StoredConfig>, json: JsonArrays): (r: ConfigView)
    ensures |r.schedules| > 0
    ensures |StoredSchedules(record, json)| > 0 ==> r.schedules == StoredSchedules(record, json)
    ensures StoredSchedules(record, json) == [] ==> r.schedules == FormDefaults.DefaultSchedules
    ensures FallsBack(Column(record, Details), r.details, FormDefaults.DefaultDetails)
    ensures FallsBack(Column(record, BankName), r.bankName, FormDefaults.DefaultBankName)
    ensures FallsBack(Column(record, AccountNumber), r.accountNumber, FormDefaults.DefaultAccountNumber)
    ensures FallsBack(Column(record, Depositor), r.depositor, FormDefaults.DefaultDepositor)
    ensures FallsBack(Column(record, Price), r.price, FormDefaults.DefaultPrice)
    ensures r.updatedAt.Some? <==> Truthy(Column(record, UpdatedAt))
    ensures r.updatedAt.Some? ==> r.updatedAt == Column(record, UpdatedAt)
  {
    var fromDb := StoredSchedules(record, json);
    ConfigView(
      if |fromDb| > 0 then fromDb else FormDefaults.DefaultSchedules,
      OrDefault(Column(record, Details), FormDefaults.DefaultDetails),
      OrDefault(Column(record, BankName), FormDefaults.DefaultBankName),
      OrDefault(Column(record, AccountNumber), FormDefaults.DefaultAccountNumber),
      OrDefault(Column(record, Depositor), FormDefaults.DefaultDepositor),
      OrDefault(Column(record, Price), FormDefaults.DefaultPrice),
      if Truthy(Column(record, UpdatedAt)) then Column(record, UpdatedAt) else None)
  }

  /** Every text field GET shows is non-empty. */
  lemma GetFieldsNonEmpty(record: Option<StoredConfig>, json: JsonArrays)
    ensures var r := GetConfig(record, json);
      r.details != "" && r.bankName != "" && r.accountNumber != ""
      && r.depositor != "" && r.price != ""
      && forall i :: 0 <= i < |r.schedules| ==> r.schedules[i] != ""
  {
    var r := GetConfig(record, json);
    assert FormDefaults.DefaultDetails != "";
    assert FormDefaults.DefaultSchedules[0] != "" && FormDefaults.DefaultSchedules[1] != ""
      && FormDefaults.DefaultSchedules[2] != "";
  }

  // --------------------------------------------------------------- PUT

  /** A run of at most 15 decimal digits, which a double holds exactly. */
  type DigitText = s: string | AllDigits(s) && |s| <= 15

  /**
   * The body's `price`: absent (`Number(undefined)` is NaN), `null`
   * (`Number(null)` is 0), a digit string (what the admin form sends), or a
   * value `Number` turns into NaN or an infinity.
   */
  datatype PriceInput = PriceAbsent | PriceNull | PriceDigits(digits: DigitText) | PriceNotFinite

  /** `Number.isFinite(Number(price)) ? Number(price).toString() : default`. */
  function PriceText(price: PriceInput): (r: string)
    ensures AllDigits(r) && r != ""
    ensures |r| > 1 ==> r[0] != '0'
    ensures price.PriceDigits? ==> DecimalValue(r) == DecimalValue(price.digits)
    ensures price.PriceAbsent? || price.PriceNotFinite? ==> r == FormDefaults.DefaultPrice
    ensures price.PriceNull? ==> r == "0"
  {
    match price
    case PriceAbsent => FormDefaults.DefaultPrice
    case PriceNull => NatToString(0)
    case PriceDigits(digits) =>
      NatToStringValue(DecimalValue(digits));
      NatToString(DecimalValue(digits))
    case PriceNotFinite => FormDefaults.DefaultPrice
  }

  /** A price already written the way `toString` writes it is stored unchanged. */
  lemma CanonicalPriceKept(digits: DigitText)
    requires Canonical(digits)
    ensures PriceText(PriceDigits(digits)) == digits
  {
    CanonicalRoundTrip(digits);
  }

  /** The PUT body; text fields as in GET, `None` for absent or null. */
  datatype PutBody = PutBody(
    schedules: Raw,
    details: Option<string>,
    bankName: Option<string>,
    accountNumber: Option<string>,
    depositor: Option<string>,
    price: PriceInput)

  /** The upserted `form_config` row. */
  datatype ConfigRow = ConfigRow(
    id: int,
    schedules: seq<string>,
    details: string,
    bankName: string,
    accountNumber: string,
    depositor: string,
    price: string,
    updatedAt: string)

  datatype PutResult = PutUnauthorized | PutFailed | PutSaved(row: ConfigRow)
  {
    function Status(): nat {
      match this
      case PutUnauthorized => 401
      case PutFailed => 500
      case PutSaved(_) => 200
    }
  }

  /** `value ? String(value).trim() : fallback`. */
  function TrimOr(value: Option<string>, fallback: string): (r: string)
    ensures Truthy(value) ==> r == Trim(value.value)
    ensures !Truthy(value) ==> r == fallback
  {
    if Truthy(value) then Trim(value.value) else fallback
  }

  /** The schedules PUT stores: the array's non-blank entries, trimmed, or the defaults. */
  function PutSchedules(v: Raw): (r: seq<string>)
    ensures |r| > 0
    ensures v.RawArray? && TrimNonEmpty(v.items) != [] ==> r == TrimNonEmpty(v.items)
    ensures !v.RawArray? || TrimNonEmpty(v.items) == [] ==> r == FormDefaults.DefaultSchedules
  {
    var parsed := if v.RawArray? then TrimNonEmpty(v.items) else [];
    if |parsed| > 0 then parsed else FormDefaults.DefaultSchedules
  }

  /**
   * `PUT`: `cookie` and `env` decide the admin gate, `storeFails` whether the
   * upsert reports an error, `now` is `new Date().toISOString()`.
   */
  function PutConfig(cookie: Option<string>, env: AdminAuth.Env, body: PutBody,
                     storeFails: bool, now: string): (r: PutResult)
    requires cookie.Some? ==> AdminAuth.IsAscii(cookie.value)
    ensures r.PutUnauthorized? <==> AdminAuth.RequireAdmin(cookie, env).Some?
    ensures r.PutFailed? <==> AdminAuth.IsAdminAuthed(cookie, env) && storeFails
    ensures r.PutSaved? ==>
      && r.row.id == 1
      && r.row.schedules == PutSchedules(body.schedules)
      && r.row.details == TrimOr(body.details, FormDefaults.DefaultDetails)
      && r.row.bankName == TrimOr(body.bankName, FormDefaults.DefaultBankName)
      && r.row.accountNumber == TrimOr(body.accountNumber, FormDefaults.DefaultAccountNumber)
      && r.row.depositor == TrimOr(body.depositor, FormDefaults.DefaultDepositor)
      && r.row.price == PriceText(body.price)
      && r.row.updatedAt == now
  {
    if AdminAuth.RequireAdmin(cookie, env).Some? then PutUnauthorized
    else
      var row := ConfigRow(
        1,
        PutSchedules(body.schedules),
        TrimOr(body.details, FormDefaults.DefaultDetails),
        TrimOr(body.bankName, FormDefaults.DefaultBankName),
        TrimOr(body.accountNumber, FormDefaults.DefaultAccountNumber),
        TrimOr(body.depositor, FormDefaults.DefaultDepositor),
        PriceText(body.price),
        now);
      if storeFails then PutFailed else PutSaved(row)
  }

  /** The row as a later GET reads it back. */
  function Stored(row: ConfigRow): StoredConfig {
    StoredConfig(RawArray(row.schedules), Some(row.details), Some(row.bankName),
                 Some(row.accountNumber), Some(row.depositor), Some(row.price), Some(row.updatedAt))
  }

  /** What GET shows for a text field after PUT stored `TrimOr(value, fallback)`. */
  function ShownAfterPut(value: Option<string>, fallback: string): string {
    if Truthy(value) && Trim(value.value) != "" then Trim(value.value) else fallback
  }

  /**
   * PUT then GET: the schedules come back as saved, a text field comes back
   * trimmed, and a blank one (stored as "") comes back as its default.
   */
  lemma PutThenGet(cookie: Option<string>, env: AdminAuth.Env, body: PutBody, now: string, json: JsonArrays)
    requires cookie.Some? ==> AdminAuth.IsAscii(cookie.value)
    requires PutConfig(cookie, env, body, false, now).PutSaved?
    ensures var row := PutConfig(cookie, env, body, false, now).row;
      var shown := GetConfig(Some(Stored(row)), json);
      && shown.schedules == row.schedules
      && shown.details == ShownAfterPut(body.details, FormDefaults.DefaultDetails)
      && shown.bankName == ShownAfterPut(body.bankName, FormDefaults.DefaultBankName)
      && shown.accountNumber == ShownAfterPut(body.accountNumber, FormDefaults.DefaultAccountNumber)
      && shown.depositor == ShownAfterPut(body.depositor, FormDefaults.DefaultDepositor)
      && shown.price == row.price
      && shown.updatedAt == (if now == "" then None else Some(now))
  {
    var row := PutConfig(cookie, env, body, false, now).row;
    var schedules := PutSchedules(body.schedules);
    TrimNonEmptyClean(schedules);
    assert StoredSchedules(Some(Stored(row)), json) == schedules;
    var shown := GetConfig(Some(Stored(row)), json);
    StoredColumns(row);
    TextRoundTrip(body.details, FormDefaults.DefaultDetails, shown.details);
    TextRoundTrip(body.bankName, FormDefaults.DefaultBankName, shown.bankName);
    TextRoundTrip(body.accountNumber, FormDefaults.DefaultAccountNumber, shown.accountNumber);
    TextRoundTrip(body.depositor, FormDefaults.DefaultDepositor, shown.depositor);
  }

  /** Each column of a stored row reads back as the row's field. */
  lemma StoredColumns(row: ConfigRow)
    ensures var stored := Some(Stored(row));
      && Column(stored, Details) == Some(row.details)
      && Column(stored, BankName) == Some(row.bankName)
      && Column(stored, AccountNumber) == Some(row.accountNumber)
      && Column(stored, Depositor) == Some(row.depositor)
      && Column(stored, Price) == Some(row.price)
      && Column(stored, UpdatedAt) == Some(row.updatedAt)
  {
  }

  /** A text field stored by PUT and shown by GET. */
  lemma TextRoundTrip(value: Option<string>, fallback: string, shown: string)
    requires fallback != ""
    requires FallsBack(Some(TrimOr(value, fallback)), shown, fallback)
    ensures shown == ShownAfterPut(value, fallback)
  {
  }

  /** A blank text field is stored as "" and read back as the default. */
  lemma BlankDetailsShowDefault(cookie: Option<string>, env: AdminAuth.Env, body: PutBody, now: string, json: JsonArrays)
    requires cookie.Some? ==> AdminAuth.IsAscii(cookie.value)
    requires PutConfig(cookie, env, body, false, now).PutSaved?
    requires body.details.Some? && body.details.value != ""
    requires forall i :: 0 <= i < |body.details.value| ==> IsSpace(body.details.value[i])
    ensures PutConfig(cookie, env, body, false, now).row.details == ""
    ensures GetConfig(Some(Stored(PutConfig(cookie, env, body, false, now).row)), json).details
      == FormDefaults.DefaultDetails
  {
  }
}
