// Vesting schedules: nt-fe/components/lockup-details-modal.tsx, on whole seconds.
module Vesting {
  import opened Wrappers
  import opened Arithmetic

  // ----- The next unlock -----

  // A date is shown by its second.
  datatype Unlock = NotAvailable | Completed | Date(seconds: int)

  function FormatDate(seconds: int): Unlock { if seconds <= 0 then NotAvailable else Date(seconds) }

  // The first unlock after `now`; unlocks happen at start + k * interval for k >= 1.
  ghost predicate IsNext(start: int, interval: int, now: int, k: nat, at: int) {
    && k >= 1 && at == start + k * interval && at > now
    && (k > 1 ==> start + (k - 1) * interval <= now)
  }

  function Count(rounds: Option<int>): int { if rounds.Some? then rounds.value else 0 }

  lemma MulStep(k: int, interval: int)
    ensures (k + 1) * interval == k * interval + interval
  {
  }

  method CalculateNextFtUnlockDate(start: Option<int>, interval: Option<int>, rounds: Option<int>, now: int)
    returns (r: Unlock, ghost k: nat)
    ensures r == Completed <==>
              && start.Some? && start.value != 0 && interval.Some? && interval.value > 0
              && rounds.Some? && rounds.value > 0 && start.value + rounds.value * interval.value <= now
    ensures (start.None? || start.value == 0 || interval.None? || interval.value <= 0) ==> r == NotAvailable
    ensures start.Some? && start.value != 0 && interval.Some? && interval.value > 0 && r != Completed ==>
              && IsNext(start.value, interval.value, now, k, start.value + k * interval.value)
              && (rounds.Some? && rounds.value > 0 ==> k <= rounds.value)
              && r == if start.value + k * interval.value <= 0 then NotAvailable
                      else Date(start.value + k * interval.value)
  {
    k := 0;
    if start.None? || start.value == 0 || interval.None? || interval.value <= 0 { return NotAvailable, k; }
    var totalRounds := Count(rounds);
    var nextUnlock := start.value + interval.value;
    var releaseIndex := 1;
    while nextUnlock <= now && (totalRounds <= 0 || releaseIndex < totalRounds)
      invariant releaseIndex >= 1 && nextUnlock == start.value + releaseIndex * interval.value
      invariant releaseIndex > 1 ==> start.value + (releaseIndex - 1) * interval.value <= now
      invariant totalRounds > 0 ==> releaseIndex <= totalRounds
      decreases now - nextUnlock
    {
      MulStep(releaseIndex, interval.value);
      nextUnlock := nextUnlock + interval.value;
      releaseIndex := releaseIndex + 1;
    }
    k := releaseIndex;
    if totalRounds > 0 {
      MulMonotone(releaseIndex, totalRounds, interval.value);
    }
    if totalRounds > 0 && releaseIndex >= totalRounds && nextUnlock <= now { return Completed, k; }
    return FormatDate(nextUnlock), k;
  }

  // The loop's answer in closed form.
  lemma NextClosedForm(start: int, interval: int, now: int, k: nat, at: int)
    requires interval > 0
    ensures IsNext(start, interval, now, k, at) <==>
            k == (if now < start + interval then 1 else (now - start) / interval + 1) && at == start + k * interval
  {
    var q, r := (now - start) / interval, (now - start) % interval;
    assert now - start == q * interval + r && 0 <= r < interval;
    MulStep(q, interval);
    MulStep(k - 1, interval);
    if k >= q + 2 { MulMonotone(q + 1, k - 1, interval); }
    if k <= q { MulMonotone(k, q, interval); }
    if now < start + interval {
      if q >= 1 { MulMonotone(1, q, interval); }
    } else {
      if q <= 0 { MulMonotone(q, 0, interval); }
    }
  }

  // ----- Release intervals -----

  // Year, day, hour, minute, second.
  datatype Part = Part(count: nat, unit: nat)

  datatype Label = NoLabel | EveryMonth | EveryQuarter | EveryUnit(unit: nat) | EveryMultiple(parts: seq<Part>)

  function Seconds(unit: nat): (s: nat)
    ensures s > 0
  {
    if unit == 0 then 31536000 else if unit == 1 then 86400 else if unit == 2 then 3600 else if unit == 3 then 60 else 1
  }

  // How many of a unit make the next larger one.
  function Radix(unit: nat): nat
    requires unit > 0
  {
    if unit == 1 then 365 else if unit == 2 then 24 else 60
  }

  function Value(parts: seq<Part>): nat {
    if parts == [] then 0 else parts[0].count * Seconds(parts[0].unit) + Value(parts[1..])
  }

  // Parts in strictly descending units from `unit` on, none empty, none above its radix.
  ghost predicate MixedRadix(parts: seq<Part>, unit: nat) {
    parts == [] ||
    (&& unit <= parts[0].unit < 5
     && parts[0].count > 0
     && (parts[0].unit > 0 ==> parts[0].count < Radix(parts[0].unit))
     && MixedRadix(parts[1..], parts[0].unit + 1))
  }

  function PartsOf(seconds: nat, unit: nat): seq<Part>
    requires unit <= 5
    decreases 5 - unit
  {
    if unit == 5 then []
    else if seconds < Seconds(unit) then PartsOf(seconds, unit + 1)
    else [Part(seconds / Seconds(unit), unit)] + PartsOf(seconds % Seconds(unit), unit + 1)
  }

  lemma DivMod(c: nat, u: nat, v: nat)
    requires v < u
    ensures (c * u + v) / u == c && (c * u + v) % u == v
  {
    var n := c * u + v;
    var q, r := n / u, n % u;
    assert n == q * u + r && 0 <= r < u;
    assert (q - c) * u == v - r;
    if q > c { MulMonotone(1, q - c, u); }
    if q < c { MulMonotone(q - c, -1, u); }
  }

  lemma AtLeastOne(n: nat, u: nat)
    requires 0 < u <= n
    ensures n / u > 0
  {
    var q := n / u;
    assert n == q * u + n % u;
    assert q == 0 ==> q * u == 0;
  }

  lemma {:induction false} MixedRadixBound(parts: seq<Part>, unit: nat)
    requires 0 < unit <= 5 && MixedRadix(parts, unit)
    ensures Value(parts) < Seconds(unit - 1)
    decreases |parts|
  {
    if parts != [] {
      var p := parts[0];
      MixedRadixBound(parts[1..], p.unit + 1);
      MulMonotone(p.count + 1, Radix(p.unit), Seconds(p.unit));
      MulStep(p.count, Seconds(p.unit));
      assert Radix(p.unit) * Seconds(p.unit) == Seconds(p.unit - 1);
      assert Seconds(p.unit - 1) <= Seconds(unit - 1);
    }
  }

  // The loop's parts are a mixed-radix numeral for the interval ...
  lemma {:induction false} PartsAreMixedRadix(seconds: nat, unit: nat)
    requires unit <= 5 && (unit > 0 ==> seconds < Seconds(unit - 1))
    ensures MixedRadix(PartsOf(seconds, unit), unit) && Value(PartsOf(seconds, unit)) == seconds
    decreases 5 - unit
  {
    if unit < 5 {
      var u := Seconds(unit);
      if seconds < u {
        PartsAreMixedRadix(seconds, unit + 1);
        LaterUnit(PartsOf(seconds, unit + 1), unit);
      } else {
        PartsAreMixedRadix(seconds % u, unit + 1);
        AtLeastOne(seconds, u);
        BelowRadix(seconds, unit);
        FirstPart(seconds / u, unit, PartsOf(seconds % u, unit + 1));
      }
    }
  }

  lemma BelowRadix(seconds: nat, unit: nat)
    requires unit < 5 && (unit > 0 ==> seconds < Seconds(unit - 1))
    ensures seconds == seconds / Seconds(unit) * Seconds(unit) + seconds % Seconds(unit)
    ensures unit > 0 ==> seconds / Seconds(unit) < Radix(unit)
  {
  }

  lemma FirstPart(count: nat, unit: nat, rest: seq<Part>)
    requires unit < 5 && count > 0 && (unit > 0 ==> count < Radix(unit)) && MixedRadix(rest, unit + 1)
    ensures MixedRadix([Part(count, unit)] + rest, unit)
    ensures Value([Part(count, unit)] + rest) == count * Seconds(unit) + Value(rest)
  {
    assert ([Part(count, unit)] + rest)[1..] == rest;
  }

  lemma LaterUnit(parts: seq<Part>, unit: nat)
    requires MixedRadix(parts, unit + 1)
    ensures MixedRadix(parts, unit)
  {
  }

  // ... and the only one.
  lemma {:induction false} MixedRadixUnique(parts: seq<Part>, unit: nat)
    requires unit <= 5 && MixedRadix(parts, unit)
    ensures PartsOf(Value(parts), unit) == parts
    decreases 5 - unit
  {
    if unit < 5 {
      if parts == [] || parts[0].unit > unit {
        MixedRadixUnique(parts, unit + 1);
        MixedRadixBound(parts, unit + 1);
      } else {
        var p, u := parts[0], Seconds(unit);
        MixedRadixUnique(parts[1..], unit + 1);
        MixedRadixBound(parts[1..], unit + 1);
        DivMod(p.count, u, Value(parts[1..]));
        MulMonotone(1, p.count, u);
        assert parts == [p] + parts[1..];
      }
    }
  }

  function LabelOf(seconds: int): Label {
    if seconds <= 0 then NoLabel
    else if seconds == 2592000 then EveryMonth
    else if seconds == 7776000 then EveryQuarter
    else
      var parts := PartsOf(seconds, 0);
      if |parts| == 1 && parts[0].count == 1 then EveryUnit(parts[0].unit) else EveryMultiple(parts)
  }

  method FormatReleaseInterval(seconds: Option<int>) returns (text: Label)
    ensures text == if seconds.Some? then LabelOf(seconds.value) else NoLabel
  {
    if seconds.None? || seconds.value == 0 || seconds.value <= 0 { return NoLabel; }
    if seconds.value == 2592000 { return EveryMonth; }
    if seconds.value == 7776000 { return EveryQuarter; }
    var parts := SplitInterval(seconds.value);
    PartsAreMixedRadix(seconds.value, 0);
    if |parts| == 1 && parts[0].count == 1 { return EveryUnit(parts[0].unit); }
    return if parts != [] then EveryMultiple(parts) else NoLabel;
  }

  // One turn of the loop over the units.
  lemma PartsStep(parts: seq<Part>, remaining: nat, unit: nat)
    requires unit < 5
    ensures parts + PartsOf(remaining, unit) ==
            if remaining < Seconds(unit) then parts + PartsOf(remaining, unit + 1)
            else (parts + [Part(remaining / Seconds(unit), unit)]) + PartsOf(remaining % Seconds(unit), unit + 1)
  {
  }

  // The loop of `formatReleaseInterval` over the units.
  method SplitInterval(seconds: nat) returns (parts: seq<Part>)
    ensures parts == PartsOf(seconds, 0)
  {
    var remaining: nat := seconds;
    parts := [];
    assert parts + PartsOf(seconds, 0) == PartsOf(seconds, 0);
    for unit := 0 to 5
      invariant PartsOf(seconds, 0) == parts + PartsOf(remaining, unit)
    {
      PartsStep(parts, remaining, unit);
      if remaining < Seconds(unit) { continue; }
      AtLeastOne(remaining, Seconds(unit));
      var count := remaining / Seconds(unit);
      if count <= 0 { continue; }
      parts := parts + [Part(count, unit)];
      remaining := remaining % Seconds(unit);
    }
  }

  function PartsShown(text: Label): seq<Part> {
    match text
    case EveryUnit(unit) => [Part(1, unit)]
    case EveryMultiple(parts) => parts
    case _ => []
  }

  // Two intervals never share a text.
  lemma LabelsDistinct(a: int, b: int)
    requires a > 0 && b > 0 && LabelOf(a) == LabelOf(b)
    ensures a == b
  {
    PartsAreMixedRadix(a, 0);
    PartsAreMixedRadix(b, 0);
    if LabelOf(a) != EveryMonth && LabelOf(a) != EveryQuarter {
      assert PartsShown(LabelOf(a)) == PartsOf(a, 0);
      assert PartsShown(LabelOf(b)) == PartsOf(b, 0);
    }
  }

  // ----- The English text, nt-fe/messages/en.json -----

  function UnitName(unit: nat): string {
    if unit == 0 then "year" else if unit == 1 then "day" else if unit == 2 then "hour"
    else if unit == 3 then "minute" else "second"
  }

  function PartName(p: Part): string { UnitName(p.unit) + if p.count == 1 then "" else "s" }

  // `show` prints a count.
  function PartsText(parts: seq<Part>, show: nat -> string): string
    decreases |parts|, 0
  {
    if parts == [] then ""
    else show(parts[0].count) + (" " + (PartName(parts[0]) + Tail(parts[1..], show)))
  }

  // `join(" ")` after the first part.
  function Tail(parts: seq<Part>, show: nat -> string): string
    decreases |parts|, 1
  {
    if parts == [] then "" else " " + PartsText(parts, show)
  }

  function English(text: Label, show: nat -> string): string {
    match text
    case NoLabel => "N/A"
    case EveryMonth => "Every month"
    case EveryQuarter => "Every quarter"
    case _ => "Every " + PartsText(PartsShown(text), show)
  }

  predicate NoSpace(s: string) { ' ' !in s }

  ghost predicate ShowsCounts(show: nat -> string) {
    && (forall n :: NoSpace(show(n)))
    && (forall m, n :: show(m) == show(n) ==> m == n)
  }

  predicate SpaceOrEnd(s: string) { s == "" || s[0] == ' ' }

  function FirstSpace(s: string): nat { if s == "" || s[0] == ' ' then 0 else 1 + FirstSpace(s[1..]) }

  lemma {:induction false} WordLength(a: string, x: string)
    requires NoSpace(a) && SpaceOrEnd(x)
    ensures FirstSpace(a + x) == |a|
  {
    if a == "" {
      assert a + x == x;
    } else {
      assert (a + x)[1..] == a[1..] + x && a[0] in a;
      WordLength(a[1..], x);
    }
  }

  lemma SplitAtSpace(a: string, x: string, b: string, y: string)
    requires NoSpace(a) && NoSpace(b) && SpaceOrEnd(x) && SpaceOrEnd(y) && a + x == b + y
    ensures a == b && x == y
  {
    WordLength(a, x);
    WordLength(b, y);
    assert (a + x)[..|a|] == a && (b + y)[..|b|] == b && (a + x)[|a|..] == x && (b + y)[|b|..] == y;
  }

  lemma PartNamesDiffer(p: Part, q: Part)
    requires p.count == q.count && PartName(p) == PartName(q) && p.unit < 5 && q.unit < 5
    ensures p == q
  {
    assert PartName(p)[0] == UnitName(p.unit)[0] && PartName(q)[0] == UnitName(q.unit)[0];
  }

  lemma {:induction false} PartsTextInjective(a: seq<Part>, b: seq<Part>, show: nat -> string)
    requires ShowsCounts(show) && PartsText(a, show) == PartsText(b, show) && a != [] && b != []
    requires (forall p :: p in a ==> p.unit < 5) && forall p :: p in b ==> p.unit < 5
    ensures a == b
  {
    var p, q := a[0], b[0];
    SplitAtSpace(show(p.count), " " + (PartName(p) + Tail(a[1..], show)),
                 show(q.count), " " + (PartName(q) + Tail(b[1..], show)));
    Behind(PartName(p) + Tail(a[1..], show), PartName(q) + Tail(b[1..], show));
    SplitAtSpace(PartName(p), Tail(a[1..], show), PartName(q), Tail(b[1..], show));
    PartNamesDiffer(p, q);
    if a[1..] != [] && b[1..] != [] {
      Behind(PartsText(a[1..], show), PartsText(b[1..], show));
      PartsTextInjective(a[1..], b[1..], show);
    }
    assert a == [p] + a[1..] && b == [q] + b[1..];
  }

  lemma Behind(x: string, y: string)
    ensures " " + x == " " + y ==> x == y
  {
    assert (" " + x)[1..] == x && (" " + y)[1..] == y;
  }

  lemma EveryInjective(x: string, y: string)
    ensures "Every " + x == "Every " + y ==> x == y
  {
    assert ("Every " + x)[6..] == x && ("Every " + y)[6..] == y;
  }

  lemma {:induction false} PartsInUnits(parts: seq<Part>, unit: nat)
    requires MixedRadix(parts, unit)
    ensures forall p :: p in parts ==> p.unit < 5
    decreases |parts|
  {
    if parts != [] {
      PartsInUnits(parts[1..], parts[0].unit + 1);
      assert parts == [parts[0]] + parts[1..];
    }
  }

  lemma PartsOfInterval(a: int)
    requires a > 0
    ensures PartsOf(a, 0) != [] && MixedRadix(PartsOf(a, 0), 0) && Value(PartsOf(a, 0)) == a
    ensures forall p :: p in PartsOf(a, 0) ==> p.unit < 5
    ensures LabelOf(a) != EveryMonth && LabelOf(a) != EveryQuarter ==> PartsShown(LabelOf(a)) == PartsOf(a, 0)
  {
    PartsAreMixedRadix(a, 0);
    PartsInUnits(PartsOf(a, 0), 0);
  }

  lemma NamedTexts(parts: seq<Part>, show: nat -> string)
    requires parts != []
    ensures ' ' in PartsText(parts, show)
    ensures "Every " + PartsText(parts, show) != "Every month" && "Every " + PartsText(parts, show) != "Every quarter"
  {
    var text := PartsText(parts, show);
    assert text[|show(parts[0].count)|] == ' ';
    EveryInjective(text, "month");
    EveryInjective(text, "quarter");
    assert "Every " + "month" == "Every month" && "Every " + "quarter" == "Every quarter";
  }

  // Two positive intervals never read the same in English.
  lemma EnglishDistinct(a: int, b: int, show: nat -> string)
    requires ShowsCounts(show) && a > 0 && b > 0 && English(LabelOf(a), show) == English(LabelOf(b), show)
    ensures a == b
  {
    PartsOfInterval(a);
    PartsOfInterval(b);
    NamedTexts(PartsOf(a, 0), show);
    NamedTexts(PartsOf(b, 0), show);
    var x, y := LabelOf(a), LabelOf(b);
    if x != EveryMonth && x != EveryQuarter && y != EveryMonth && y != EveryQuarter {
      EveryInjective(PartsText(PartsOf(a, 0), show), PartsText(PartsOf(b, 0), show));
      PartsTextInjective(PartsOf(a, 0), PartsOf(b, 0), show);
    }
  }

  // Thirty and ninety days have names of their own, and other intervals are spelt out.
  lemma NamedExamples(show: nat -> string)
    ensures English(LabelOf(30 * 86400), show) == "Every month"
    ensures English(LabelOf(90 * 86400), show) == "Every quarter"
  {
  }

  lemma YearExample(show: nat -> string)
    requires show(1) == "1"
    ensures English(LabelOf(365 * 86400), show) == "Every 1 year"
  {
    YearParts();
    OnePart(1, 0, show);
    assert "Every " + ("1" + (" " + "year")) == "Every 1 year";
  }

  lemma DayHourExample(show: nat -> string)
    requires show(1) == "1" && show(2) == "2"
    ensures English(LabelOf(86400 + 2 * 3600), show) == "Every 1 day 2 hours"
  {
    DayHourParts();
    TwoParts(1, 2, 1, 2, show);
    assert PartName(Part(2, 2)) == "hours" && PartName(Part(1, 1)) == "day";
    assert "Every " + ("1" + (" " + ("day" + (" " + ("2" + (" " + "hours")))))) == "Every 1 day 2 hours";
  }

  lemma MinuteSecondExample(show: nat -> string)
    requires show(1) == "1" && show(2) == "2"
    ensures English(LabelOf(60 + 2), show) == "Every 1 minute 2 seconds"
  {
    MinuteSecondParts();
    TwoParts(1, 2, 3, 4, show);
    assert PartName(Part(2, 4)) == "seconds" && PartName(Part(1, 3)) == "minute";
    assert "Every " + ("1" + (" " + ("minute" + (" " + ("2" + (" " + "seconds")))))) == "Every 1 minute 2 seconds";
  }

  lemma OnePart(count: nat, unit: nat, show: nat -> string)
    ensures PartsText([Part(count, unit)], show) == show(count) + (" " + PartName(Part(count, unit)))
  {
    var p := [Part(count, unit)];
    assert p[1..] == [] && PartName(p[0]) + Tail(p[1..], show) == PartName(p[0]);
  }

  lemma TwoParts(c: nat, d: nat, u: nat, v: nat, show: nat -> string)
    ensures PartsText([Part(c, u), Part(d, v)], show) ==
            show(c) + (" " + (PartName(Part(c, u)) + (" " + (show(d) + (" " + PartName(Part(d, v)))))))
  {
    OnePart(d, v, show);
    var p := [Part(c, u), Part(d, v)];
    assert p[1..] == [Part(d, v)];
  }

  lemma YearParts()
    ensures LabelOf(365 * 86400) == EveryUnit(0)
  {
    assert PartsOf(0, 1) == [] by { NoParts(1); }
    assert PartsOf(31536000, 0) == [Part(1, 0)] + PartsOf(0, 1);
  }

  lemma DayHourParts()
    ensures LabelOf(86400 + 2 * 3600) == EveryMultiple([Part(1, 1), Part(2, 2)])
  {
    assert PartsOf(0, 3) == [] by { NoParts(3); }
    assert PartsOf(7200, 2) == [Part(2, 2)] + PartsOf(0, 3);
    assert PartsOf(93600, 1) == [Part(1, 1)] + PartsOf(7200, 2);
    assert PartsOf(93600, 0) == PartsOf(93600, 1);
  }

  lemma MinuteSecondParts()
    ensures LabelOf(60 + 2) == EveryMultiple([Part(1, 3), Part(2, 4)])
  {
    assert PartsOf(2, 4) == [Part(2, 4)] + PartsOf(0, 5);
    assert PartsOf(62, 3) == [Part(1, 3)] + PartsOf(2, 4);
    assert PartsOf(62, 2) == PartsOf(62, 3) && PartsOf(62, 1) == PartsOf(62, 2);
    assert PartsOf(62, 0) == PartsOf(62, 1);
  }

  lemma {:induction false} NoParts(unit: nat)
    requires unit <= 5
    ensures PartsOf(0, unit) == []
    decreases 5 - unit
  {
    if unit < 5 { NoParts(unit + 1); }
  }
}
