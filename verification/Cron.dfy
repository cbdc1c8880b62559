/**
 * packages/server/src/automation/cron.ts
 *
 * Five-field cron expressions: parsing, matching and the search for the next run.
 * Times are milliseconds since the epoch; local time is `offset` whole minutes from UTC.
 */
module Cron {
  import opened Prelude
  import Text
  import Cal = Calendar

  datatype Expression = Expression(
    minute: seq<int>,
    hour: seq<int>,
    dayOfMonth: seq<int>,
    month: seq<int>,
    dayOfWeek: seq<int>
  )

  datatype Range = Range(min: nat, max: nat)

  const MINUTE := Range(0, 59)
  const HOUR := Range(0, 23)
  const DAY_OF_MONTH := Range(1, 31)
  const MONTH := Range(1, 12)
  const DAY_OF_WEEK := Range(0, 6)

  datatype Error =
    | InvalidStep(text: string)
    | ReversedRange(text: string)
    | Unrecognized(text: string)
    | OutOfRange(value: int)
    | EmptyField
    | FieldCount(count: nat)

  // ----- Parsing ---------------------------------------------------------------------------

  /** One comma-separated part, classified by the source's three regular expressions. */
  datatype Part = Star | Stepped(lo: nat, hi: nat, step: nat) | Span(lo: nat, hi: nat) | Single(value: nat)

  function Classify(part: string, range: Range): (r: Result<Part, Error>)
    ensures r.Ok? && r.value.Stepped? ==> r.value.step > 0
  {
    var halves := Text.Split(part, '/');
    var ends := Text.Split(part, '-');
    if part == "*" then Ok(Star)
    else if |halves| == 2 && Text.IsNumeral(halves[1]) && IsStepBase(halves[0]) then
      var step := Text.NumberOf(halves[1]);
      if step == 0 then Err(InvalidStep(halves[1])) else
      var (lo, hi) := StepBounds(halves[0], range);
      Ok(Stepped(lo, hi, step))
    else if |ends| == 2 && Text.IsNumeral(ends[0]) && Text.IsNumeral(ends[1]) then
      var lo, hi := Text.NumberOf(ends[0]), Text.NumberOf(ends[1]);
      if lo > hi then Err(ReversedRange(part)) else Ok(Span(lo, hi))
    else if Text.IsNumeral(part) then Ok(Single(Text.NumberOf(part)))
    else Err(Unrecognized(part))
  }

  /** `*`, `N` or `M-N`. */
  predicate IsStepBase(base: string) {
    var ends := Text.Split(base, '-');
    base == "*" || Text.IsNumeral(base) || (|ends| == 2 && Text.IsNumeral(ends[0]) && Text.IsNumeral(ends[1]))
  }

  function StepBounds(base: string, range: Range): (nat, nat)
    requires IsStepBase(base)
  {
    var ends := Text.Split(base, '-');
    if base == "*" then (range.min, range.max)
    else if Text.IsNumeral(base) then (Text.NumberOf(base), range.max)
    else (Text.NumberOf(ends[0]), Text.NumberOf(ends[1]))
  }

  function Nth(lo: int, step: int, k: nat): int { lo + k * step }

  ghost predicate InProgression(lo: int, hi: int, step: int, v: int) {
    v <= hi && exists k: nat :: v == Nth(lo, step, k)
  }

  /** What a part denotes. A stepped part whose bounds are reversed denotes nothing. */
  ghost predicate Denotes(p: Part, range: Range, v: int) {
    match p
    case Star => range.min <= v <= range.max
    case Stepped(lo, hi, step) => InProgression(lo, hi, step, v)
    case Span(lo, hi) => lo <= v <= hi
    case Single(n) => v == n
  }

  /** The first part that is not well formed, if any. */
  function FirstError(parts: seq<string>, range: Range): Option<Error> {
    if parts == [] then None
    else match Classify(parts[0], range)
      case Err(e) => Some(e)
      case Ok(_) => FirstError(parts[1..], range)
  }

  /** The union of what the parts denote. */
  ghost predicate InUnion(parts: seq<string>, range: Range, v: int) {
    exists i :: 0 <= i < |parts| && Classify(parts[i], range).Ok? && Denotes(Classify(parts[i], range).value, range, v)
  }

  ghost predicate IsField(vs: seq<int>, range: Range) {
    && vs != []
    && StrictlyIncreasing(vs)
    && forall i :: 0 <= i < |vs| ==> range.min <= vs[i] <= range.max
  }

  /** What a field must parse to: an error of its first bad part, or the sorted union. */
  ghost predicate FieldSpec(token: string, range: Range, r: Result<seq<int>, Error>) {
    var parts := Text.Split(token, ',');
    match FirstError(parts, range)
    case Some(e) => r == Err(e)
    case None =>
      if exists v :: InUnion(parts, range, v) && !(range.min <= v <= range.max) then
        r.Err? && r.error.OutOfRange? && InUnion(parts, range, r.error.value)
        && !(range.min <= r.error.value <= range.max)
        && (forall v :: InUnion(parts, range, v) && !(range.min <= v <= range.max) ==> r.error.value <= v)
      else if forall v :: !InUnion(parts, range, v) then r == Err(EmptyField)
      else r.Ok? && IsField(r.value, range) && forall v :: v in r.value <==> InUnion(parts, range, v)
  }

  ghost predicate Distinct(out: seq<int>) {
    forall i, j :: 0 <= i < j < |out| ==> out[i] != out[j]
  }

  /** `out.add(v)` on a set kept in insertion order. */
  function Add(out: seq<int>, v: int): (r: seq<int>)
    ensures Distinct(out) ==> Distinct(r)
    ensures forall x :: x in r <==> x in out || x == v
  {
    if v in out then out else out + [v]
  }

  method InsertSorted(arr: seq<int>, v: int) returns (r: seq<int>)
    requires StrictlyIncreasing(arr) && v !in arr
    ensures StrictlyIncreasing(r) && forall x :: x in r <==> x in arr || x == v
  {
    var k := 0;
    while k < |arr| && arr[k] < v
      invariant k <= |arr|
      invariant forall j :: 0 <= j < k ==> arr[j] < v
    {
      k := k + 1;
    }
    r := arr[..k] + [v] + arr[k..];
    InsertedIncreases(arr, v, k);
    InsertedHolds(arr, v, k);
  }

  lemma InsertedHolds(arr: seq<int>, v: int, k: nat)
    requires k <= |arr|
    ensures forall x :: x in arr[..k] + [v] + arr[k..] <==> x in arr || x == v
  {
    assert arr == arr[..k] + arr[k..];
  }

  lemma InsertedIncreases(arr: seq<int>, v: int, k: nat)
    requires StrictlyIncreasing(arr) && v !in arr && k <= |arr|
    requires (forall j :: 0 <= j < k ==> arr[j] < v) && (k < |arr| ==> arr[k] >= v)
    ensures StrictlyIncreasing(arr[..k] + [v] + arr[k..])
  {
    var a, b := arr[..k], arr[k..];
    var r := a + [v] + b;
    assert k < |arr| ==> arr[k] in arr;
    forall i, j | 0 <= i < j < |r| ensures r[i] < r[j] {
      if j == k {
        assert r[i] == arr[i];
      } else if i == k {
        assert r[j] == arr[j - 1] >= arr[k];
      } else {
        assert r[i] == arr[if i < k then i else i - 1] && r[j] == arr[if j < k then j else j - 1];
      }
    }
  }

  /** `[...out].toSorted((a, b) => a - b)`. */
  method SortAscending(out: seq<int>) returns (arr: seq<int>)
    requires Distinct(out)
    ensures StrictlyIncreasing(arr) && (forall v :: v in arr <==> v in out)
  {
    arr := [];
    var n := 0;
    while n < |out|
      invariant n <= |out| && StrictlyIncreasing(arr)
      invariant forall v :: v in arr <==> v in out[..n]
    {
      assert out[..n + 1] == out[..n] + [out[n]];
      arr := InsertSorted(arr, out[n]);
      n := n + 1;
    }
    assert out[..n] == out;
  }

  /** `for (let i = lo; i <= hi; i += step) out.add(i)`. */
  method AddProgression(out: seq<int>, lo: int, hi: int, step: int) returns (r: seq<int>)
    requires step > 0 && Distinct(out)
    ensures Distinct(r)
    ensures forall v :: v in r <==> v in out || InProgression(lo, hi, step, v)
  {
    r := out;
    var i := lo;
    ghost var n: nat := 0;
    while i <= hi
      invariant i == Nth(lo, step, n) && Distinct(r)
      invariant forall v :: v in r <==> v in out || exists k: nat :: k < n && v == Nth(lo, step, k)
      invariant forall k: nat :: k < n ==> Nth(lo, step, k) <= hi
      decreases hi - i
    {
      r := Add(r, i);
      n := n + 1;
      i := i + step;
    }
    forall k: nat | k >= n ensures Nth(lo, step, k) > hi {
      NthMonotone(lo, step, n, k);
    }
  }

  lemma NthMonotone(lo: int, step: int, n: nat, k: nat)
    requires step > 0 && n <= k
    ensures Nth(lo, step, n) <= Nth(lo, step, k)
  {
    assert n * step <= k * step;
  }

  lemma UnitProgression(lo: int, hi: int, v: int)
    ensures InProgression(lo, hi, 1, v) <==> lo <= v <= hi
  {
    if lo <= v {
      assert v == Nth(lo, 1, v - lo);
    }
  }

  /** Adding the values of one part to the set. */
  method AddPart(out: seq<int>, p: Part, range: Range) returns (r: seq<int>)
    requires Distinct(out) && (p.Stepped? ==> p.step > 0)
    ensures Distinct(r) && forall v :: v in r <==> v in out || Denotes(p, range, v)
  {
    match p {
      case Star =>
        r := AddProgression(out, range.min, range.max, 1);
        forall v { UnitProgression(range.min, range.max, v); }
      case Stepped(lo, hi, step) =>
        r := AddProgression(out, lo, hi, step);
      case Span(lo, hi) =>
        r := AddProgression(out, lo, hi, 1);
        forall v { UnitProgression(lo, hi, v); }
      case Single(v) =>
        r := Add(out, v);
    }
  }

  method ExpandField(token: string, range: Range) returns (r: Result<seq<int>, Error>)
    requires range.min <= range.max
    ensures FieldSpec(token, range, r)
  {
    hide Denotes, Classify, Text.Split;
    var parts := Text.Split(token, ',');
    var out: seq<int> := [];
    var n := 0;
    while n < |parts|
      invariant n <= |parts| && Distinct(out)
      invariant FirstError(parts, range) == FirstError(parts[n..], range)
      invariant forall v :: v in out <==> InUnion(parts[..n], range, v)
    {
      var part := parts[n];
      var c := Classify(part, range);
      assert parts[n..][1..] == parts[n + 1..];
      if c.Err? {
        return Err(c.error);
      }
      out := AddPart(out, c.value, range);
      UnionSnoc(parts, n, range);
      n := n + 1;
    }
    assert parts[..n] == parts;
    var arr := SortAscending(out);
    var i := 0;
    while i < |arr|
      invariant 0 <= i <= |arr|
      invariant forall j :: 0 <= j < i ==> range.min <= arr[j] <= range.max
    {
      if arr[i] < range.min || arr[i] > range.max {
        assert arr[i] in arr && InUnion(parts, range, arr[i]);
        return Err(OutOfRange(arr[i]));
      }
      i := i + 1;
    }
    if |arr| == 0 {
      return Err(EmptyField);
    }
    assert arr[0] in arr && InUnion(parts, range, arr[0]);
    r := Ok(arr);
  }

  lemma UnionSnoc(parts: seq<string>, n: nat, range: Range)
    requires n < |parts| && Classify(parts[n], range).Ok?
    ensures forall v :: InUnion(parts[..n + 1], range, v)
                        <==> InUnion(parts[..n], range, v) || Denotes(Classify(parts[n], range).value, range, v)
  {
    forall v
      ensures InUnion(parts[..n + 1], range, v)
              <==> InUnion(parts[..n], range, v) || Denotes(Classify(parts[n], range).value, range, v) {
      var a, b := parts[..n], parts[..n + 1];
      if InUnion(a, range, v) {
        var i :| 0 <= i < n && Classify(a[i], range).Ok? && Denotes(Classify(a[i], range).value, range, v);
        assert b[i] == a[i];
      }
      if InUnion(b, range, v) {
        var i :| 0 <= i < n + 1 && Classify(b[i], range).Ok? && Denotes(Classify(b[i], range).value, range, v);
        assert i < n ==> b[i] == a[i];
      }
      if Denotes(Classify(parts[n], range).value, range, v) {
        assert b[n] == parts[n];
      }
    }
  }

  ghost predicate WellFormed(c: Expression) {
    && IsField(c.minute, MINUTE) && IsField(c.hour, HOUR) && IsField(c.dayOfMonth, DAY_OF_MONTH)
    && IsField(c.month, MONTH) && IsField(c.dayOfWeek, DAY_OF_WEEK)
  }

  ghost predicate FieldOk(token: string, range: Range) {
    exists vs :: FieldSpec(token, range, Ok(vs))
  }

  const RANGES := [MINUTE, HOUR, DAY_OF_MONTH, MONTH, DAY_OF_WEEK]

  /** The fields of an expression in the order of the text. */
  function Fields(c: Expression): seq<seq<int>> { [c.minute, c.hour, c.dayOfMonth, c.month, c.dayOfWeek] }

  /** The error reported is that of the first field that has one. */
  ghost predicate FirstBadField(w: seq<string>, e: Error)
    requires |w| == 5
  {
    exists i :: 0 <= i < 5 && FieldSpec(w[i], RANGES[i], Err(e)) && forall j :: 0 <= j < i ==> FieldOk(w[j], RANGES[j])
  }

  ghost predicate CronSpec(expr: string, r: Result<Expression, Error>) {
    var w := Text.Words(expr);
    if |w| != 5 then r == Err(FieldCount(|w|))
    else match r
      case Ok(c) => WellFormed(c) && forall i :: 0 <= i < 5 ==> FieldSpec(w[i], RANGES[i], Ok(Fields(c)[i]))
      case Err(e) => FirstBadField(w, e)
  }

  method ParseCron(expr: string) returns (r: Result<Expression, Error>)
    ensures CronSpec(expr, r)
  {
    hide FieldSpec;
    var w := Text.Words(expr);
    if |w| != 5 {
      return Err(FieldCount(|w|));
    }
    var fields: seq<seq<int>> := [];
    var i := 0;
    while i < 5
      invariant 0 <= i <= 5 && |fields| == i
      invariant forall j :: 0 <= j < i ==> FieldSpec(w[j], RANGES[j], Ok(fields[j]))
    {
      var f := ExpandField(w[i], RANGES[i]);
      if f.Err? {
        assert forall j :: 0 <= j < i ==> FieldOk(w[j], RANGES[j]);
        return Err(f.error);
      }
      fields := fields + [f.value];
      i := i + 1;
    }
    var c := Expression(fields[0], fields[1], fields[2], fields[3], fields[4]);
    assert Fields(c) == fields;
    FieldSpecGivesField(w, fields);
    r := Ok(c);
  }

  lemma FieldSpecGivesField(w: seq<string>, fields: seq<seq<int>>)
    requires |w| == |fields| == 5
    requires forall j :: 0 <= j < 5 ==> FieldSpec(w[j], RANGES[j], Ok(fields[j]))
    ensures IsField(fields[0], MINUTE) && IsField(fields[1], HOUR) && IsField(fields[2], DAY_OF_MONTH)
    ensures IsField(fields[3], MONTH) && IsField(fields[4], DAY_OF_WEEK)
  {
    hide FieldSpec, IsField;
    OneField(w[0], MINUTE, fields[0]);
    OneField(w[1], HOUR, fields[1]);
    OneField(w[2], DAY_OF_MONTH, fields[2]);
    OneField(w[3], MONTH, fields[3]);
    OneField(w[4], DAY_OF_WEEK, fields[4]);
  }

  lemma OneField(token: string, range: Range, vs: seq<int>)
    requires FieldSpec(token, range, Ok(vs))
    ensures IsField(vs, range)
  {
  }

  /** A sorted list is determined by its elements. */
  lemma {:induction false} IncreasingUnique(a: seq<int>, b: seq<int>)
    requires StrictlyIncreasing(a) && StrictlyIncreasing(b)
    requires forall v :: v in a <==> v in b
    ensures a == b
    decreases |a|
  {
    if a == [] {
      assert forall i :: 0 <= i < |b| ==> b[i] in b;
    } else {
      assert a[0] in a && b != [];
      assert b[0] in b;
      var i :| 0 <= i < |b| && b[i] == a[0];
      var j :| 0 <= j < |a| && a[j] == b[0];
      assert a[0] == b[0];
      forall v ensures v in a[1..] <==> v in b[1..] {
        assert v in a[1..] <==> v in a && v != a[0] by {
          assert a == [a[0]] + a[1..];
        }
        assert v in b[1..] <==> v in b && v != b[0] by {
          assert b == [b[0]] + b[1..];
        }
      }
      IncreasingUnique(a[1..], b[1..]);
    }
  }

  /** The text of a field determines the list it parses to. */
  lemma {:induction false} FieldIsDetermined(token: string, range: Range, a: seq<int>, b: seq<int>)
    requires FieldSpec(token, range, Ok(a)) && FieldSpec(token, range, Ok(b))
    ensures a == b
  {
    IncreasingUnique(a, b);
  }

  // ----- What the notation means --------------------------------------------------------------

  /** `*`, `N` and `M-N` in front of a step. */
  datatype Base = All | From(n: nat) | FromTo(m: nat, n: nat)

  /** One part of a field, as one writes it: `*`, `B/S`, `M-N` and `N`. */
  datatype Written = Every | Steps(base: Base, step: nat) | To(m: nat, n: nat) | Just(n: nat)

  function PrintBase(b: Base): string {
    match b
    case All => "*"
    case From(n) => Text.Decimal(n)
    case FromTo(m, n) => Text.Join([Text.Decimal(m), Text.Decimal(n)], '-')
  }

  function Print(p: Written): string {
    match p
    case Every => "*"
    case Steps(b, step) => Text.Join([PrintBase(b), Text.Decimal(step)], '/')
    case To(m, n) => Text.Join([Text.Decimal(m), Text.Decimal(n)], '-')
    case Just(n) => Text.Decimal(n)
  }

  predicate EveryNth(lo: int, hi: int, step: nat, v: int)
    requires step > 0
  {
    lo <= v <= hi && (v - lo) % step == 0
  }

  /** The values that a part stands for. */
  predicate Selects(p: Written, range: Range, v: int) {
    match p
    case Every => range.min <= v <= range.max
    case Steps(b, step) =>
      step > 0
      && (match b
          case All => EveryNth(range.min, range.max, step, v)
          case From(n) => EveryNth(n, range.max, step, v)
          case FromTo(m, n) => EveryNth(m, n, step, v))
    case To(m, n) => m <= v <= n
    case Just(n) => v == n
  }

  lemma DigitsOnly(s: string)
    requires Text.IsNumeral(s)
    ensures '-' !in s && '/' !in s && ',' !in s && s != "*" && Text.IsSolid(s)
  {
    assert Text.IsDigit(s[0]);
  }

  lemma ProgressionIs(lo: int, hi: int, step: nat, v: int)
    requires step > 0
    ensures InProgression(lo, hi, step, v) <==> EveryNth(lo, hi, step, v)
  {
    if InProgression(lo, hi, step, v) {
      var k: nat :| v == Nth(lo, step, k);
      Multiple(k, step);
    }
    if EveryNth(lo, hi, step, v) {
      assert v == Nth(lo, step, (v - lo) / step);
    }
  }

  lemma TimesBound(t: int, step: nat)
    ensures t >= 1 ==> t * step >= step
    ensures t <= -1 ==> t * step + step <= 0
  {
  }

  lemma Distribute(k: int, q: int, step: nat)
    ensures (k - q) * step == k * step - q * step
  {
  }

  lemma Multiple(k: nat, step: nat)
    requires step > 0
    ensures k * step >= 0 && k * step % step == 0
  {
    var x := k * step;
    var q := x / step;
    assert x == q * step + x % step;
    Distribute(k, q, step);
    TimesBound(k - q, step);
  }

  lemma NumbersAround(m: nat, n: nat, sep: char)
    requires sep == '-' || sep == '/'
    ensures var s := Text.Join([Text.Decimal(m), Text.Decimal(n)], sep);
            && Text.Split(s, sep) == [Text.Decimal(m), Text.Decimal(n)]
            && Text.Split(s, if sep == '-' then '/' else '-') == [s]
            && !Text.IsNumeral(s) && s != "*"
  {
    var a, b := Text.Decimal(m), Text.Decimal(n);
    Text.DecimalReadsBack(m);
    Text.DecimalReadsBack(n);
    DigitsOnly(a);
    DigitsOnly(b);
    Text.SplitJoin([a, b], sep);
    var s := Text.Join([a, b], sep);
    assert s == a + [sep] + b && s[|a|] == sep;
    Text.SplitFirst(s, [], if sep == '-' then '/' else '-');
  }

  lemma PlainNumber(n: nat)
    ensures var s := Text.Decimal(n);
            Text.IsNumeral(s) && Text.NumberOf(s) == n && s != "*" && Text.Split(s, '-') == [s] && Text.Split(s, '/') == [s]
  {
    var s := Text.Decimal(n);
    Text.DecimalReadsBack(n);
    DigitsOnly(s);
    Text.SplitFirst(s, [], '-');
    Text.SplitFirst(s, [], '/');
  }

  lemma BaseBounds(b: Base, range: Range)
    ensures var s := PrintBase(b);
            && '/' !in s && IsStepBase(s)
            && StepBounds(s, range) == (match b case All => (range.min, range.max) case From(n) => (n, range.max) case FromTo(m, n) => (m, n))
  {
    match b {
      case All =>
      case From(n) =>
        PlainNumber(n);
        DigitsOnly(Text.Decimal(n));
      case FromTo(m, n) =>
        NumbersAround(m, n, '-');
        PlainNumber(m);
        PlainNumber(n);
        DigitsOnly(Text.Decimal(m));
        DigitsOnly(Text.Decimal(n));
    }
  }

  /** A part is read as what it stands for; only a step of nothing and a range the wrong way round are refused. */
  lemma {:induction false} PartMeans(p: Written, range: Range)
    ensures var r := Classify(Print(p), range);
            if p.Steps? && p.step == 0 then r.Err? && r.error.InvalidStep?
            else if p.To? && p.m > p.n then r == Err(ReversedRange(Print(p)))
            else r.Ok? && forall v :: Denotes(r.value, range, v) <==> Selects(p, range, v)
  {
    match p {
      case Every => assert Text.Split("*", '/') == ["*"] by { Text.SplitFirst("*", [], '/'); }
      case Steps(b, step) => StepsMean(b, step, range);
      case To(m, n) =>
        NumbersAround(m, n, '-');
        PlainNumber(m);
        PlainNumber(n);
      case Just(n) => PlainNumber(n);
    }
  }

  lemma {:induction false} StepsMean(b: Base, step: nat, range: Range)
    ensures var r := Classify(Print(Steps(b, step)), range);
            if step == 0 then r.Err? && r.error.InvalidStep?
            else r.Ok? && forall v :: Denotes(r.value, range, v) <==> Selects(Steps(b, step), range, v)
  {
    var base, s := PrintBase(b), Text.Decimal(step);
    hide PrintBase, IsStepBase, StepBounds, InProgression, EveryNth, Text.IsNumeral, Text.NumberOf;
    BaseBounds(b, range);
    PlainNumber(step);
    assert '/' !in s by { DigitsOnly(s); }
    Text.SplitJoin([base, s], '/');
    var text := Print(Steps(b, step));
    assert text == base + ['/'] + s && text[|base|] == '/';
    if step > 0 {
      forall lo, hi, v ensures InProgression(lo, hi, step, v) <==> EveryNth(lo, hi, step, v) {
        ProgressionIs(lo, hi, step, v);
      }
    }
  }

  predicate Proper(p: Written) { (p.Steps? ==> p.step > 0) && (p.To? ==> p.m <= p.n) }

  function Prints(ps: seq<Written>): seq<string> { seq(|ps|, i requires 0 <= i < |ps| => Print(ps[i])) }

  function PrintField(ps: seq<Written>): string { Text.Join(Prints(ps), ',') }

  ghost predicate FieldSelects(ps: seq<Written>, range: Range, v: int) {
    exists i :: 0 <= i < |ps| && Selects(ps[i], range, v)
  }

  ghost predicate PlainPart(s: string) { ',' !in s && Text.IsSolid(s) }

  lemma JoinedIsPlain(a: string, b: string, sep: char)
    requires PlainPart(a) && PlainPart(b) && (sep == '-' || sep == '/')
    ensures PlainPart(Text.Join([a, b], sep))
  {
    assert [a, b][1..] == [b] && Text.Join([b], sep) == b;
    assert Text.Join([a, b], sep) == a + [sep] + b;
  }

  lemma PartIsPlain(p: Written)
    ensures PlainPart(Print(p))
  {
    hide PlainPart;
    forall n: nat ensures PlainPart(Text.Decimal(n)) {
      Text.DecimalReadsBack(n);
      NumeralIsPlain(Text.Decimal(n));
    }
    assert PlainPart("*") by { StarIsPlain(); }
    match p {
      case Every =>
      case Steps(b, step) =>
        if b.FromTo? {
          JoinedIsPlain(Text.Decimal(b.m), Text.Decimal(b.n), '-');
        }
        JoinedIsPlain(PrintBase(b), Text.Decimal(step), '/');
      case To(m, n) => JoinedIsPlain(Text.Decimal(m), Text.Decimal(n), '-');
      case Just(_) =>
    }
  }

  lemma StarIsPlain()
    ensures PlainPart("*")
  {
  }

  lemma NumeralIsPlain(s: string)
    requires Text.IsNumeral(s)
    ensures PlainPart(s)
  {
    DigitsOnly(s);
  }

  lemma {:induction false} NoFirstError(parts: seq<string>, range: Range)
    requires forall i :: 0 <= i < |parts| ==> Classify(parts[i], range).Ok?
    ensures FirstError(parts, range) == None
  {
    if parts != [] {
      NoFirstError(parts[1..], range);
    }
  }

  ghost predicate Acceptable(ps: seq<Written>, range: Range) {
    && (exists v :: FieldSelects(ps, range, v))
    && (forall v :: FieldSelects(ps, range, v) ==> range.min <= v <= range.max)
  }

  /**
   * A field of proper parts is accepted exactly if it stands for some value and for none out of range;
   * and then the list holds exactly the values that one of its parts stands for.
   */
  lemma {:induction false} FieldMeans(ps: seq<Written>, range: Range, r: Result<seq<int>, Error>)
    requires ps != [] && (forall i :: 0 <= i < |ps| ==> Proper(ps[i])) && FieldSpec(PrintField(ps), range, r)
    ensures r.Ok? <==> Acceptable(ps, range)
    ensures r.Ok? ==> forall v :: v in r.value <==> FieldSelects(ps, range, v)
  {
    hide Classify, Print, Selects, Denotes;
    var parts := Prints(ps);
    forall i | 0 <= i < |ps| ensures ',' !in parts[i] && Classify(parts[i], range).Ok? {
      PartIsPlain(ps[i]);
      PartMeans(ps[i], range);
    }
    Text.SplitJoin(parts, ',');
    NoFirstError(parts, range);
    forall v ensures InUnion(parts, range, v) <==> FieldSelects(ps, range, v) {
      forall i | 0 <= i < |ps| ensures Denotes(Classify(parts[i], range).value, range, v) <==> Selects(ps[i], range, v) {
        PartMeans(ps[i], range);
      }
    }
    hide InUnion, FieldSelects, IsField;
    assert r.Ok? ==> IsField(r.value, range);
    if r.Ok? {
      SomeInField(r.value, range);
    }
  }

  lemma SomeInField(vs: seq<int>, range: Range)
    requires IsField(vs, range)
    ensures vs[0] in vs && forall v :: v in vs ==> range.min <= v <= range.max
  {
  }

  lemma {:induction false} JoinedIsSolid(parts: seq<string>)
    requires parts != [] && forall i :: 0 <= i < |parts| ==> Text.IsSolid(parts[i])
    ensures Text.IsSolid(Text.Join(parts, ','))
  {
    if |parts| > 1 {
      JoinedIsSolid(parts[1..]);
    }
  }

  lemma FieldIsSolid(ps: seq<Written>)
    requires ps != []
    ensures Text.IsSolid(PrintField(ps))
  {
    hide Print, Text.IsSolid;
    forall i | 0 <= i < |ps| ensures Text.IsSolid(Prints(ps)[i]) {
      PartIsPlain(ps[i]);
    }
    JoinedIsSolid(Prints(ps));
  }

  function PrintCron(fields: seq<seq<Written>>): string {
    Text.Join(seq(|fields|, i requires 0 <= i < |fields| => PrintField(fields[i])), ' ')
  }

  /**
   * Five fields of proper parts, printed and parsed: they are accepted exactly if each of them is, and
   * then each list of the expression, in the order of the text, holds what its field stands for.
   */
  lemma {:induction false} CronMeans(fields: seq<seq<Written>>, r: Result<Expression, Error>)
    requires |fields| == 5 && forall i :: 0 <= i < 5 ==> fields[i] != [] && forall j :: 0 <= j < |fields[i]| ==> Proper(fields[i][j])
    requires CronSpec(PrintCron(fields), r)
    ensures RANGES == [Range(0, 59), Range(0, 23), Range(1, 31), Range(1, 12), Range(0, 6)]
    ensures r.Ok? <==> forall i :: 0 <= i < 5 ==> Acceptable(fields[i], RANGES[i])
    ensures r.Ok? ==> forall i, v :: 0 <= i < 5 ==> (v in Fields(r.value)[i] <==> FieldSelects(fields[i], RANGES[i], v))
  {
    hide PrintField, FieldSpec, FieldSelects, Acceptable, Text.Words, Text.IsSolid, WellFormed, Proper;
    var w := seq(5, i requires 0 <= i < 5 => PrintField(fields[i]));
    assert PrintCron(fields) == Text.Join(w, ' ');
    forall i | 0 <= i < 5 ensures Text.IsSolid(w[i]) {
      FieldIsSolid(fields[i]);
    }
    Text.WordsOfJoined(w);
    if r.Ok? {
      forall i | 0 <= i < 5
        ensures Acceptable(fields[i], RANGES[i]) && forall v :: v in Fields(r.value)[i] <==> FieldSelects(fields[i], RANGES[i], v) {
        FieldMeans(fields[i], RANGES[i], Ok(Fields(r.value)[i]));
      }
    } else {
      var i :| 0 <= i < 5 && FieldSpec(w[i], RANGES[i], Err(r.error)) && forall j :: 0 <= j < i ==> FieldOk(w[j], RANGES[j]);
      FieldMeans(fields[i], RANGES[i], Err(r.error));
    }
  }

  // ----- Matching --------------------------------------------------------------------------

  function LocalMinute(offset: int, ms: int): int { ms / 60000 + offset }

  function MinuteOf(lm: int): int { lm % 60 }

  function HourOf(lm: int): int { lm / 60 % 24 }

  function DayOf(lm: int): int { lm / 1440 }

  predicate DayMatches(c: Expression, day: int) {
    && Cal.MonthOf(day) in c.month
    && (var dom, dow := c.dayOfMonth, c.dayOfWeek;
        var domAll, dowAll := |dom| == 31, |dow| == 7;
        if domAll && dowAll then true
        else if !domAll && !dowAll then Cal.DateOf(day) in dom || Cal.WeekdayOf(day) in dow
        else if !domAll then Cal.DateOf(day) in dom
        else Cal.WeekdayOf(day) in dow)
  }

  predicate Matches(c: Expression, offset: int, ms: int) {
    var lm := LocalMinute(offset, ms);
    MinuteOf(lm) in c.minute && HourOf(lm) in c.hour && DayMatches(c, DayOf(lm))
  }

  ghost predicate Unrestricted(vs: seq<int>, range: Range) {
    forall v :: range.min <= v <= range.max ==> v in vs
  }

  lemma {:induction false} IncreasingSpread(vs: seq<int>, i: nat, j: nat)
    requires StrictlyIncreasing(vs) && i <= j < |vs|
    ensures vs[j] - vs[i] >= j - i
    decreases j - i
  {
    if i < j {
      IncreasingSpread(vs, i, j - 1);
    }
  }

  /** The length tests of the matcher: a field is as long as its range exactly when it is unrestricted. */
  lemma {:induction false} LengthMeansUnrestricted(vs: seq<int>, range: Range)
    requires IsField(vs, range) && range.min <= range.max
    ensures |vs| <= range.max - range.min + 1
    ensures |vs| == range.max - range.min + 1 <==> Unrestricted(vs, range)
  {
    IncreasingSpread(vs, 0, |vs| - 1);
    if |vs| == range.max - range.min + 1 {
      forall v | range.min <= v <= range.max ensures v in vs {
        var i := v - range.min;
        IncreasingSpread(vs, 0, i);
        IncreasingSpread(vs, i, |vs| - 1);
        assert vs[i] == v;
      }
    } else if Unrestricted(vs, range) {
      FullHasAll(vs, range, range.max - range.min);
    }
  }

  /** An increasing list holding the first n + 1 values of its range holds them in place. */
  lemma {:induction false} FullHasAll(vs: seq<int>, range: Range, n: nat)
    requires IsField(vs, range) && Unrestricted(vs, range) && n <= range.max - range.min
    ensures n < |vs| && vs[n] == range.min + n
  {
    if n > 0 {
      FullHasAll(vs, range, n - 1);
    }
    assert range.min + n in vs;
    var j :| 0 <= j < |vs| && vs[j] == range.min + n;
    IncreasingSpread(vs, 0, j);
  }

  lemma DateInRange(day: int)
    ensures 1 <= Cal.DateOf(day) <= 31
  {
    hide Cal.DateOf, Cal.YearOf, Cal.MonthOf;
    Cal.MonthLengthBound(Cal.IsLeap(Cal.YearOf(day)), Cal.MonthOf(day));
  }

  /**
   * The day rule as coded: the month must always allow the day; with both day fields restricted
   * either one of them suffices, otherwise both must allow it. (IEEE Std 1003.1 lets a restricted
   * day of the week suffice also in months that are not selected.)
   */
  lemma {:induction false} DayRule(c: Expression, day: int)
    requires WellFormed(c)
    ensures DayMatches(c, day) <==>
            && Cal.MonthOf(day) in c.month
            && if !Unrestricted(c.dayOfMonth, DAY_OF_MONTH) && !Unrestricted(c.dayOfWeek, DAY_OF_WEEK)
               then Cal.DateOf(day) in c.dayOfMonth || Cal.WeekdayOf(day) in c.dayOfWeek
               else Cal.DateOf(day) in c.dayOfMonth && Cal.WeekdayOf(day) in c.dayOfWeek
  {
    hide Cal.MonthOf, Cal.DateOf, Cal.WeekdayOf;
    assert 1 <= Cal.DateOf(day) <= 31 by { DateInRange(day); }
    LengthMeansUnrestricted(c.dayOfMonth, DAY_OF_MONTH);
    LengthMeansUnrestricted(c.dayOfWeek, DAY_OF_WEEK);
  }

  /**
   * When an expression matches, read off a calendar and a clock: at `h`:`mi` local time, and at every
   * second of that minute, on a valid date, exactly if the minute, the hour and the month are
   * selected and the day of the month and the weekday meet the day rule. `offset` is added to UTC
   * to give local time; weekdays are counted from a Sunday, 4 January 1970.
   */
  lemma {:induction false} MatchesOnDate(c: Expression, offset: int, y: int, m: int, d: int, h: int, mi: int, rest: int)
    requires WellFormed(c) && Cal.ValidDate(y, m, d) && 0 <= h < 24 && 0 <= mi < 60 && 0 <= rest < 60000
    ensures var day := Cal.DayNumber(y, m, d);
            var utc := (day * 1440 + h * 60 + mi - offset) * 60000 + rest;
            var weekday := (day - Cal.DayNumber(1970, 1, 4)) % 7;
            Matches(c, offset, utc) <==>
              && mi in c.minute && h in c.hour && m in c.month
              && if !Unrestricted(c.dayOfMonth, DAY_OF_MONTH) && !Unrestricted(c.dayOfWeek, DAY_OF_WEEK)
                 then d in c.dayOfMonth || weekday in c.dayOfWeek
                 else d in c.dayOfMonth && weekday in c.dayOfWeek
  {
    hide DayMatches, MinuteOf, HourOf, DayOf, Cal.MonthOf, Cal.DateOf, Cal.DayNumber, Cal.WeekdayOf, Cal.ValidDate;
    var day := Cal.DayNumber(y, m, d);
    var lm := day * 1440 + h * 60 + mi;
    Cal.DateOfDayNumber(y, m, d);
    Cal.DaysSinceSunday(day);
    ClockReading(day, h, mi);
    DayRule(c, day);
    assert LocalMinute(offset, (lm - offset) * 60000 + rest) == lm;
  }

  // ----- The next run ------------------------------------------------------------------------

  const YEAR_MS := 366 * 24 * 60 * 60 * 1000

  /** The first whole minute after `fromMs`. */
  function StartOf(fromMs: int): int { (fromMs / 60000 + 1) * 60000 }

  function Search(c: Expression, offset: int, cursor: int, limit: int): Option<int>
    decreases limit - cursor
  {
    if cursor >= limit then None
    else if Matches(c, offset, cursor) then Some(cursor)
    else Search(c, offset, cursor + 60000, limit)
  }

  function Next(c: Expression, offset: int, fromMs: int): Option<int> {
    Search(c, offset, StartOf(fromMs), StartOf(fromMs) + YEAR_MS)
  }

  method NextRunAt(c: Expression, offset: int, fromMs: int) returns (r: Option<int>)
    ensures r == Next(c, offset, fromMs)
  {
    var start := fromMs - fromMs % 60000;
    start := start + 60000;
    var limit := start + YEAR_MS;
    var cursor := start;
    while cursor < limit
      invariant Search(c, offset, cursor, limit) == Next(c, offset, fromMs)
      decreases limit - cursor
    {
      if Matches(c, offset, cursor) {
        return Some(cursor);
      }
      cursor := cursor + 60000;
    }
    r := None;
  }

  lemma WholeMinutesApart(a: int, b: int)
    requires a % 60000 == 0 && b % 60000 == 0 && a < b
    ensures a + 60000 <= b && (a + 60000) % 60000 == 0
  {
  }

  lemma {:induction false} SearchFindsFirst(c: Expression, offset: int, cursor: int, limit: int, t: int)
    requires cursor % 60000 == 0 && t % 60000 == 0 && cursor <= t < limit && Matches(c, offset, t)
    ensures Search(c, offset, cursor, limit).Some? && Search(c, offset, cursor, limit).value <= t
    decreases limit - cursor
  {
    hide Matches;
    if !Matches(c, offset, cursor) {
      WholeMinutesApart(cursor, t);
      SearchFindsFirst(c, offset, cursor + 60000, limit, t);
    }
  }

  lemma {:induction false} SearchIsSound(c: Expression, offset: int, cursor: int, limit: int)
    requires cursor % 60000 == 0
    ensures var r := Search(c, offset, cursor, limit);
            r.Some? ==> cursor <= r.value < limit && r.value % 60000 == 0 && Matches(c, offset, r.value)
    decreases limit - cursor
  {
    hide Matches;
    if cursor < limit && !Matches(c, offset, cursor) {
      SearchIsSound(c, offset, cursor + 60000, limit);
    }
  }

  lemma StartIsNextMinute(fromMs: int)
    ensures StartOf(fromMs) % 60000 == 0 && fromMs < StartOf(fromMs) <= fromMs + 60000
    ensures forall t :: t % 60000 == 0 && t > fromMs ==> t >= StartOf(fromMs)
  {
  }

  /**
   * The next run is the least matching whole minute strictly after `fromMs`; there is none
   * exactly when no whole minute of the following 366 days matches.
   */
  lemma {:induction false} NextIsLeast(c: Expression, offset: int, fromMs: int)
    ensures match Next(c, offset, fromMs)
            case Some(r) =>
              && r > fromMs && r % 60000 == 0 && Matches(c, offset, r)
              && forall t :: fromMs < t < r && t % 60000 == 0 ==> !Matches(c, offset, t)
            case None =>
              forall t :: fromMs < t < StartOf(fromMs) + YEAR_MS && t % 60000 == 0 ==> !Matches(c, offset, t)
  {
    hide Matches, StartOf;
    var start := StartOf(fromMs);
    StartIsNextMinute(fromMs);
    SearchIsSound(c, offset, start, start + YEAR_MS);
    forall t | fromMs < t < start + YEAR_MS && t % 60000 == 0 && Matches(c, offset, t)
      ensures Next(c, offset, fromMs).Some? && Next(c, offset, fromMs).value <= t {
      SearchFindsFirst(c, offset, start, start + YEAR_MS, t);
    }
  }

  /** Reading the clock back from a day, an hour and a minute. */
  lemma ClockReading(day: int, h: int, m: int)
    requires 0 <= h < 24 && 0 <= m < 60
    ensures var lm := day * 1440 + h * 60 + m; MinuteOf(lm) == m && HourOf(lm) == h && DayOf(lm) == day
  {
    var lm := day * 1440 + h * 60 + m;
    assert lm / 60 == day * 24 + h;
  }

  /** A day that matches gives a run if its chosen minute lies in the searched window. */
  lemma DayGivesRun(c: Expression, offset: int, fromMs: int, day: int)
    requires WellFormed(c) && DayMatches(c, day)
    requires var lm := day * 1440 + c.hour[0] * 60 + c.minute[0];
             var s := LocalMinute(offset, StartOf(fromMs));
             s <= lm < s + 527040
    ensures Next(c, offset, fromMs).Some?
  {
    hide DayMatches, MinuteOf, HourOf, DayOf;
    var lm := day * 1440 + c.hour[0] * 60 + c.minute[0];
    var t := (lm - offset) * 60000;
    ClockReading(day, c.hour[0], c.minute[0]);
    assert LocalMinute(offset, t) == lm;
    assert Matches(c, offset, t);
    StartIsNextMinute(fromMs);
    SearchFindsFirst(c, offset, StartOf(fromMs), StartOf(fromMs) + YEAR_MS, t);
  }

  /** Within the 365 days after any day, every month has a day of every weekday. */
  lemma WeekdayInMonth(day: int, m: int, w: int) returns (d: int)
    requires 1 <= m <= 12 && 0 <= w <= 6
    ensures day < d <= day + 365 && Cal.MonthOf(d) == m && Cal.WeekdayOf(d) == w
  {
    hide Cal.YearStart, Cal.MonthOf, Cal.WeekdayOf;
    var y := Cal.YearOf(day);
    MonthPlace(y, m);
    MonthPlace(y + 1, m);
    var first := Cal.DayNumber(y, m, 1);
    if first > day {
      d := WeekdayFrom(y, m, 1, w);
    } else if day + 7 < first + Cal.MonthLength(Cal.IsLeap(y), m) {
      d := WeekdayFrom(y, m, day + 2 - first, w);
    } else {
      d := WeekdayFrom(y + 1, m, 1, w);
    }
  }

  /** Where a month lies in its year, and how far the same month of the next year is. */
  lemma MonthPlace(y: int, m: int)
    requires 1 <= m <= 12
    ensures Cal.YearStart(y) <= Cal.DayNumber(y, m, 1) <= Cal.YearStart(y) + 335
    ensures 28 <= Cal.MonthLength(Cal.IsLeap(y), m) <= 31
    ensures Cal.DayNumber(y + 1, m, 1) - Cal.DayNumber(y, m, 1) <= 366
  {
    Cal.YearStartNext(y);
    Cal.DaysBeforeMonotone(Cal.IsLeap(y), 1, m);
  }

  /** Any seven days of one month have every weekday. */
  lemma WeekdayFrom(y: int, m: int, dd: int, w: int) returns (d: int)
    requires 0 <= w <= 6 && Cal.ValidDate(y, m, dd) && Cal.ValidDate(y, m, dd + 6)
    ensures var from := Cal.DayNumber(y, m, dd);
            from <= d <= from + 6 && Cal.MonthOf(d) == m && Cal.WeekdayOf(d) == w
  {
    var from := Cal.DayNumber(y, m, dd);
    d := NextWeekday(from, w);
    Cal.DateOfDayNumber(y, m, dd + d - from);
  }

  lemma NextWeekday(from: int, w: int) returns (d: int)
    requires 0 <= w <= 6
    ensures from <= d <= from + 6 && Cal.WeekdayOf(d) == w
  {
    d := from + (w - (from + 4)) % 7;
    assert (d + 4) % 7 == w;
  }

  /**
   * Within 366 days of any minute, every yearly date has every time of day: the two partial
   * days at the ends of the window complement each other.
   */
  lemma YearlyDate(s: int, m: int, dd: int, u: int) returns (d: int)
    requires Cal.EveryYear(m, dd) && 0 <= u < 1440
    ensures Cal.MonthOf(d) == m && Cal.DateOf(d) == dd && s <= d * 1440 + u < s + 527040
  {
    hide Cal.DayNumber, Cal.MonthOf, Cal.DateOf, Cal.YearStart;
    var day := DayOf(s);
    var y := Cal.YearOf(day);
    DatePlace(y, m, dd);
    DatePlace(y + 1, m, dd);
    d := Cal.DayNumber(y, m, dd);
    if d < day || (d == day && u < s - day * 1440) {
      d := Cal.DayNumber(y + 1, m, dd);
    }
  }

  lemma DatePlace(y: int, m: int, dd: int)
    requires Cal.EveryYear(m, dd)
    ensures Cal.ValidDate(y, m, dd) && Cal.ValidDate(y + 1, m, dd)
    ensures var d := Cal.DayNumber(y, m, dd);
            && Cal.MonthOf(d) == m && Cal.DateOf(d) == dd
            && Cal.YearStart(y) <= d < Cal.YearStart(y + 1) <= Cal.YearStart(y) + 366
            && d + 365 <= Cal.DayNumber(y + 1, m, dd) <= d + 366
  {
    Cal.EveryYearIsValid(y, m, dd);
    Cal.EveryYearIsValid(y + 1, m, dd);
    Cal.DateOfDayNumber(y, m, dd);
    Cal.YearStartNext(y);
  }

  /** What a user can check before saving a schedule: a weekday rule, or a date that exists every year. */
  ghost predicate RunsEveryYear(c: Expression) {
    || !Unrestricted(c.dayOfWeek, DAY_OF_WEEK)
    || exists m, d :: m in c.month && d in c.dayOfMonth && Cal.EveryYear(m, d)
  }

  lemma {:induction false} YearlyScheduleRuns(c: Expression, offset: int, fromMs: int)
    requires WellFormed(c) && RunsEveryYear(c)
    ensures Next(c, offset, fromMs).Some?
  {
    var s := LocalMinute(offset, StartOf(fromMs));
    var u := c.hour[0] * 60 + c.minute[0];
    LengthMeansUnrestricted(c.dayOfWeek, DAY_OF_WEEK);
    if !Unrestricted(c.dayOfWeek, DAY_OF_WEEK) {
      var d := WeekdayInMonth(DayOf(s), c.month[0], c.dayOfWeek[0]);
      DayGivesRun(c, offset, fromMs, d);
    } else {
      var m, dd :| m in c.month && dd in c.dayOfMonth && Cal.EveryYear(m, dd);
      var d := YearlyDate(s, m, dd, u);
      DayGivesRun(c, offset, fromMs, d);
    }
  }

  /** Without a weekday rule and a yearly date, only 29 February can match. */
  lemma OnlyLeapDays(c: Expression, day: int)
    requires WellFormed(c) && !RunsEveryYear(c) && DayMatches(c, day)
    ensures Cal.MonthOf(day) == 2 && Cal.DateOf(day) == 29 && Cal.IsLeap(Cal.YearOf(day))
    ensures 2 in c.month && 29 in c.dayOfMonth
  {
    LengthMeansUnrestricted(c.dayOfWeek, DAY_OF_WEEK);
    LengthMeansUnrestricted(c.dayOfMonth, DAY_OF_MONTH);
    var m := Cal.MonthOf(day);
    assert |c.dayOfMonth| == 31 ==> 1 in c.dayOfMonth;
    assert Cal.EveryYear(m, 1);
    assert Cal.DateOf(day) in c.dayOfMonth;
    Cal.NotEveryYear(day);
  }

  /** From 1 March 2025, local time, the search finds nothing for such a schedule. */
  lemma NoRunFrom2025(c: Expression, offset: int)
    requires WellFormed(c) && !RunsEveryYear(c)
    ensures exists fromMs :: Next(c, offset, fromMs).None?
  {
    hide DayMatches, Cal.DayNumber, Cal.MonthOf, Cal.DateOf;
    var first := Cal.DayNumber(2025, 3, 1);
    var fromMs := (first * 1440 - offset) * 60000;
    SearchIsSound(c, offset, StartOf(fromMs), StartOf(fromMs) + YEAR_MS);
    var r := Next(c, offset, fromMs);
    if r.Some? {
      var day := DayOf(LocalMinute(offset, r.value));
      assert first <= day <= first + 366;
      OnlyLeapDays(c, day);
      NoLeapDayAfterMarch2025(day);
    }
  }

  lemma NoLeapDayAfterMarch2025(day: int)
    requires Cal.DayNumber(2025, 3, 1) <= day <= Cal.DayNumber(2025, 3, 1) + 366
    ensures !Cal.IsLeap(Cal.YearOf(day))
  {
    if day < Cal.YearStart(2026) {
      Cal.YearIsUnique(day, 2025);
    } else {
      Cal.YearIsUnique(day, 2026);
    }
  }

  /**
   * Exactly which expressions always have a next run: from every time and at every offset,
   * if and only if the expression restricts the weekday or selects a date of every year.
   */
  lemma {:induction false} AlwaysRunsIff(c: Expression, offset: int)
    requires WellFormed(c)
    ensures (forall fromMs :: Next(c, offset, fromMs).Some?) <==> RunsEveryYear(c)
  {
    if RunsEveryYear(c) {
      forall fromMs ensures Next(c, offset, fromMs).Some? {
        YearlyScheduleRuns(c, offset, fromMs);
      }
    } else {
      NoRunFrom2025(c, offset);
    }
  }

  /** Exactly which expressions never run: those that select no date of any year. */
  lemma {:induction false} NeverRunsIff(c: Expression, offset: int)
    requires WellFormed(c)
    ensures (forall fromMs :: Next(c, offset, fromMs).None?)
            <==> !RunsEveryYear(c) && !(2 in c.month && 29 in c.dayOfMonth)
  {
    if RunsEveryYear(c) {
      YearlyScheduleRuns(c, offset, 0);
    } else if 2 in c.month && 29 in c.dayOfMonth {
      var day := Cal.DayNumber(2024, 2, 29);
      Cal.DateOfDayNumber(2024, 2, 29);
      LengthMeansUnrestricted(c.dayOfWeek, DAY_OF_WEEK);
      var fromMs := (day * 1440 - offset - 1) * 60000;
      DayGivesRun(c, offset, fromMs, day);
    } else {
      forall fromMs ensures Next(c, offset, fromMs).None? {
        NextIsLeast(c, offset, fromMs);
        var r := Next(c, offset, fromMs);
        if r.Some? {
          OnlyLeapDays(c, DayOf(LocalMinute(offset, r.value)));
        }
      }
    }
  }

  // ----- A date to check against -----------------------------------------------------------------

  function Between(lo: int, hi: int): (r: seq<int>)
    requires lo <= hi + 1
    ensures |r| == hi - lo + 1 && forall i :: 0 <= i < |r| ==> r[i] == lo + i
  {
    seq(hi - lo + 1, i => lo + i)
  }

  /** "0 9 * * 1" */
  const MONDAYS_AT_NINE := Expression([0], [9], Between(1, 31), Between(1, 12), [1])

  lemma MondaysAreWellFormed()
    ensures WellFormed(MONDAYS_AT_NINE) && 1 in MONDAYS_AT_NINE.month && 1 in MONDAYS_AT_NINE.dayOfMonth
    ensures Unrestricted(MONDAYS_AT_NINE.dayOfMonth, DAY_OF_MONTH)
  {
    var c := MONDAYS_AT_NINE;
    assert c.month[0] == 1 && c.dayOfMonth[0] == 1;
    forall v | 1 <= v <= 31 ensures v in c.dayOfMonth {
      assert c.dayOfMonth[v - 1] == v;
    }
  }

  lemma NewYear2024()
    ensures Cal.ValidDate(2024, 1, 1) && Cal.DayNumber(2024, 1, 1) == 19723 && Cal.DayNumber(1970, 1, 4) == 3
  {
  }

  /** On 1 January 2024 it matches at nine, and at no other minute. */
  lemma {:induction false} MatchesAtNine(h: int, mi: int)
    requires 0 <= h < 24 && 0 <= mi < 60
    ensures Matches(MONDAYS_AT_NINE, 0, (19723 * 1440 + h * 60 + mi) * 60000) <==> h == 9 && mi == 0
  {
    NewYear2024();
    MondaysAreWellFormed();
    hide Matches, WellFormed, Unrestricted, Cal.DayNumber, Cal.ValidDate;
    MatchesOnDate(MONDAYS_AT_NINE, 0, 2024, 1, 1, h, mi, 0);
  }

  lemma NotBeforeNine(t: int)
    requires 1704067200000 < t < 1704067200000 + 9 * 3600000 && t % 60000 == 0
    ensures !Matches(MONDAYS_AT_NINE, 0, t)
  {
    hide Matches;
    var minutes := t / 60000 - 19723 * 1440;
    var h, mi := minutes / 60, minutes % 60;
    MatchesAtNine(h, mi);
    assert t == (19723 * 1440 + h * 60 + mi) * 60000;
  }

  /** From the start of 1 January 2024 UTC, a Monday, it runs next at nine on the same day. */
  lemma {:induction false} MondayAtNine()
    ensures Cal.DayNumber(2024, 1, 1) * 86400000 == 1704067200000
    ensures Next(MONDAYS_AT_NINE, 0, 1704067200000) == Some(1704067200000 + 9 * 3600000)
  {
    NewYear2024();
    hide Matches, Next, Cal.DayNumber;
    MatchesAtNine(9, 0);
    NextIsLeast(MONDAYS_AT_NINE, 0, 1704067200000);
    var r := Next(MONDAYS_AT_NINE, 0, 1704067200000);
    assert r.Some? && r.value <= 1704067200000 + 9 * 3600000;
    if r.value < 1704067200000 + 9 * 3600000 {
      NotBeforeNine(r.value);
    }
  }
}
