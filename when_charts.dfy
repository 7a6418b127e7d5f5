/**
 * The data shaping and axis labelling shared by the `when` charts: each
 * series entry becomes one flat record keyed by series name, the charts
 * draw one series per key other than `time` and `__typename`, and the
 * time axis is named and labelled after the `when` period.
 */
module WhenCharts {
  import opened Common
  import opened Decimal

  // ---------------------------------------------------------------- records

  /** A property value: the entry's `time` stamp or a series value. */
  datatype Value = Number(n: int) | Text(s: string)

  /** One element of `entry.data`. */
  datatype Datum = Datum(name: string, value: int)

  /** One element of the `data` prop. */
  datatype Entry = Entry(time: string, data: seq<Datum>)

  datatype Prop = Prop(key: string, val: Value)

  /** A plain object: its own properties, in the order `Object.keys` lists them. */
  type Obj = seq<Prop>

  function Keys(o: Obj): (ks: seq<string>)
    ensures |ks| == |o| && forall i :: 0 <= i < |o| ==> ks[i] == o[i].key
  {
    if o == [] then [] else [o[0].key] + Keys(o[1..])
  }

  /** No key is listed twice. */
  ghost predicate DistinctKeys(o: Obj)
  {
    forall i, j :: 0 <= i < j < |o| ==> o[i].key != o[j].key
  }

  /** `o[k]`, `None` for a missing property. */
  function Get(o: Obj, k: string): (r: Option<Value>)
    ensures r.None? <==> k !in Keys(o)
  {
    if o == [] then None else if o[0].key == k then Some(o[0].val) else Get(o[1..], k)
  }

  /**
   * `o[k] = v`: an existing property is overwritten where it stands, a
   * new one is added after all others.
   */
  function Set(o: Obj, k: string, v: Value): (r: Obj)
    ensures Get(r, k) == Some(v)
    ensures forall k' :: k' != k ==> Get(r, k') == Get(o, k')
    ensures |o| <= |r| <= |o| + 1
  {
    if o == [] then [Prop(k, v)]
    else if o[0].key == k then [Prop(k, v)] + o[1..]
    else [o[0]] + Set(o[1..], k, v)
  }

  /** Assignment keeps the key order: an existing key stays in place, a new key goes last. */
  lemma {:induction false} SetKeys(o: Obj, k: string, v: Value)
    ensures k in Keys(o) ==> Keys(Set(o, k, v)) == Keys(o)
    ensures k !in Keys(o) ==> Keys(Set(o, k, v)) == Keys(o) + [k]
  {
    if o != [] && o[0].key != k {
      SetKeys(o[1..], k, v);
      assert Keys(Set(o, k, v)) == [o[0].key] + Keys(Set(o[1..], k, v));
      assert Keys(o) == [o[0].key] + Keys(o[1..]);
    }
  }

  /** A key listed once stays listed once. */
  lemma SetDistinct(o: Obj, k: string, v: Value)
    requires DistinctKeys(o)
    ensures DistinctKeys(Set(o, k, v))
  {
    SetKeys(o, k, v);
    var r := Set(o, k, v);
    var ks, rs := Keys(o), Keys(r);
    forall i, j | 0 <= i < j < |r| ensures r[i].key != r[j].key {
      assert rs[i] == r[i].key && rs[j] == r[j].key;
      if j < |o| {
        assert rs[i] == ks[i] && rs[j] == ks[j];
      } else {
        assert rs[j] == k && k !in ks && rs[i] == ks[i];
      }
    }
  }

  /** Writes each datum's value under its name, in order, so a later datum overwrites an earlier one. */
  function Assign(o: Obj, ds: seq<Datum>): (r: Obj)
    ensures |o| <= |r| <= |o| + |ds|
    ensures forall k :: k in Keys(o) ==> k in Keys(r)
    decreases |ds|
  {
    if ds == [] then o
    else
      var prev := Assign(o, ds[..|ds| - 1]);
      var r := Set(prev, ds[|ds| - 1].name, Number(ds[|ds| - 1].value));
      assert forall k :: k in Keys(prev) ==> Get(prev, k).Some? && Get(r, k).Some?;
      r
  }

  /** The record `transformData` makes of one entry. */
  function Build(e: Entry): (r: Obj)
    ensures 1 <= |r| <= 1 + |e.data|
    ensures Get(r, "time").Some?
  {
    Assign([Prop("time", Text(e.time))], e.data)
  }

  /** The names of the data, in order. */
  function Names(ds: seq<Datum>): (ns: seq<string>)
    ensures |ns| == |ds| && forall i :: 0 <= i < |ds| ==> ns[i] == ds[i].name
    decreases |ds|
  {
    if ds == [] then [] else Names(ds[..|ds| - 1]) + [ds[|ds| - 1].name]
  }

  /** The value of the last datum named `k`. */
  function Lookup(ds: seq<Datum>, k: string): Option<int>
    decreases |ds|
  {
    if ds == [] then None
    else if ds[|ds| - 1].name == k then Some(ds[|ds| - 1].value)
    else Lookup(ds[..|ds| - 1], k)
  }

  /** `Lookup` finds the last occurrence of a name, and nothing when the name is absent. */
  lemma {:induction false} LookupIsLast(ds: seq<Datum>, k: string)
    ensures Lookup(ds, k).None? <==> forall i :: 0 <= i < |ds| ==> ds[i].name != k
    ensures forall i :: 0 <= i < |ds| && ds[i].name == k && (forall j :: i < j < |ds| ==> ds[j].name != k)
                        ==> Lookup(ds, k) == Some(ds[i].value)
    decreases |ds|
  {
    if ds != [] {
      var init := ds[..|ds| - 1];
      LookupIsLast(init, k);
      forall i | 0 <= i < |init| ensures init[i] == ds[i] { }
    }
  }

  lemma {:induction false} AssignGet(o: Obj, ds: seq<Datum>, k: string)
    ensures Get(Assign(o, ds), k) == match Lookup(ds, k)
                                     case Some(v) => Some(Number(v))
                                     case None => Get(o, k)
    decreases |ds|
  {
    if ds != [] {
      AssignGet(o, ds[..|ds| - 1], k);
    }
  }

  /**
   * Each record maps every name of its entry to the value of the name's
   * last occurrence, and `time` to the entry's stamp unless a datum of
   * that name overwrote it.
   */
  lemma BuildGet(e: Entry, k: string)
    ensures Get(Build(e), k) == match Lookup(e.data, k)
                                case Some(v) => Some(Number(v))
                                case None => if k == "time" then Some(Text(e.time)) else None
  {
    AssignGet([Prop("time", Text(e.time))], e.data, k);
  }

  lemma {:induction false} AssignKeys(o: Obj, ds: seq<Datum>)
    requires DistinctKeys(o) && |o| > 0
    ensures DistinctKeys(Assign(o, ds)) && |Assign(o, ds)| > 0 && Keys(Assign(o, ds))[0] == Keys(o)[0]
    ensures forall k :: k in Keys(Assign(o, ds)) <==> k in Keys(o) || k in Names(ds)
    decreases |ds|
  {
    if ds != [] {
      var init := ds[..|ds| - 1];
      var last := ds[|ds| - 1];
      AssignKeys(o, init);
      SetKeys(Assign(o, init), last.name, Number(last.value));
      SetDistinct(Assign(o, init), last.name, Number(last.value));
      assert Names(ds) == Names(init) + [last.name];
    }
  }

  /** A record lists `time` first and then each name of its entry exactly once. */
  lemma BuildKeys(e: Entry)
    ensures DistinctKeys(Build(e))
    ensures |Build(e)| > 0 && Keys(Build(e))[0] == "time"
    ensures forall k :: k in Keys(Build(e)) <==> k == "time" || k in Names(e.data)
  {
    var init := [Prop("time", Text(e.time))];
    assert Keys(init) == ["time"];
    AssignKeys(init, e.data);
  }

  /** `transformData`: one record per entry, in order. */
  method TransformData(data: seq<Entry>) returns (out: seq<Obj>)
    ensures |out| == |data|
    ensures forall i :: 0 <= i < |data| ==> out[i] == Build(data[i])
  {
    out := [];
    var i := 0;
    while i < |data|
      invariant 0 <= i <= |data|
      invariant |out| == i
      invariant forall m :: 0 <= m < i ==> out[m] == Build(data[m])
    {
      var obj := Flatten(data[i]);
      out := out + [obj];
      i := i + 1;
    }
  }

  /** The body of the outer loop: `time` first, then each datum written in turn. */
  method Flatten(entry: Entry) returns (obj: Obj)
    ensures obj == Build(entry)
  {
    obj := [Prop("time", Text(entry.time))];
    var j := 0;
    while j < |entry.data|
      invariant 0 <= j <= |entry.data|
      invariant obj == Assign([Prop("time", Text(entry.time))], entry.data[..j])
    {
      assert entry.data[..j + 1][..j] == entry.data[..j];
      obj := Set(obj, entry.data[j].name, Number(entry.data[j].value));
      j := j + 1;
    }
    assert entry.data[..j] == entry.data;
  }

  // ---------------------------------------------------------------- series

  /** `a` is `b` with some elements left out, the rest in their order. */
  ghost predicate IsSubsequence(a: seq<string>, b: seq<string>)
    decreases |b|
  {
    a == [] || (b != [] && ((a[0] == b[0] && IsSubsequence(a[1..], b[1..])) || IsSubsequence(a, b[1..])))
  }

  /** The keys of a record in order, without `time` and `__typename`. */
  function SeriesKeys(o: Obj): (r: seq<string>)
    ensures forall v :: v in r <==> v in Keys(o) && v != "time" && v != "__typename"
    ensures IsSubsequence(r, Keys(o))
  {
    if o == [] then []
    else
      assert Keys(o) == [o[0].key] + Keys(o[1..]);
      var rest := SeriesKeys(o[1..]);
      if o[0].key != "time" && o[0].key != "__typename" then
        assert ([o[0].key] + rest)[1..] == rest;
        [o[0].key] + rest
      else rest
  }

  /**
   * The series a chart draws: nothing for missing or empty data, otherwise
   * one per key of the first record other than `time` and `__typename`.
   */
  function RenderedSeries(data: Option<seq<Entry>>): (r: Option<seq<string>>)
    ensures r.None? <==> data.None? || |data.value| == 0
  {
    if data.None? || |data.value| == 0 then None else Some(SeriesKeys(Build(data.value[0])))
  }

  /** The charts draw a series for exactly the names of the first entry, `time` and `__typename` aside. */
  lemma RenderedSeriesNames(data: Option<seq<Entry>>)
    ensures RenderedSeries(data).Some? ==>
              forall v :: v in RenderedSeries(data).value
                          <==> v != "time" && v != "__typename"
                               && v in Names(data.value[0].data)
  {
    if data.Some? && |data.value| > 0 {
      BuildKeys(data.value[0]);
    }
  }

  // ---------------------------------------------------------------- axis name and labels

  /** `xAxisName`: `router.query.when` may be absent. */
  function XAxisName(when: Option<string>): (name: string)
    ensures name == "days" || name == "months" || name == "hours"
    ensures name == "days" <==> when == Some("week") || when == Some("month")
    ensures name == "months" <==> when == Some("year") || when == Some("forever")
  {
    if when == Some("week") || when == Some("month") then "days"
    else if when == Some("year") || when == Some("forever") then "months"
    else "hours"
  }

  /** `String.prototype.slice(-2)`: the last two characters, or the whole of a shorter string. */
  function LastTwo(s: string): (t: string)
    ensures |t| == if |s| < 2 then |s| else 2
    ensures t == s[|s| - |t|..]
  {
    if |s| >= 2 then s[|s| - 2..] else s
  }

  /** The month number 1 to 12, padded with a leading zero to two digits. */
  function MonthText(month: nat): (t: string)
    ensures |t| == 2 && AllDigits(t)
    ensures ParseNat(t) == month % 12 + 1
  {
    var n := month % 12 + 1;
    var digits := NatToString(n);
    ParseNatToString(n);
    var s := "0" + digits;
    if |digits| == 1 then
      ParseNatLeadingZero(digits);
      assert LastTwo(s) == s;
      LastTwo(s)
    else
      assert LastTwo(s) == digits;
      LastTwo(s)
  }

  /** The last two characters of a numeral, for `n >= 10`, are its tens and units digits. */
  lemma LastTwoDigits(n: nat)
    requires n >= 10
    ensures var s := NatToString(n);
            s[|s| - 2..] == [DigitChar((n / 10) % 10), DigitChar(n % 10)]
  {
    NatToStringUnits(n);
    NatToStringLast(n / 10);
    LastTwoOf(NatToString(n / 10), DigitChar(n % 10));
  }

  lemma LastTwoOf(h: string, d: char)
    requires |h| >= 1
    ensures (h + [d])[|h + [d]| - 2..] == [h[|h| - 1], d]
  {
  }

  lemma TensUnits(n: nat)
    ensures (n / 10) % 10 * 10 + n % 10 == n % 100
  {
    var q, r := n / 100, n % 100;
    assert n == 100 * q + r;
    assert n / 10 == 10 * q + r / 10 by {
      assert n == 10 * (10 * q + r / 10) + r % 10;
    }
    assert (n / 10) % 10 == r / 10;
    assert n % 10 == r % 10 by {
      assert n == 10 * (10 * q + r / 10) + r % 10;
    }
  }

  /** The value of a two-digit numeral. */
  lemma ParseTwo(a: nat, b: nat)
    requires a < 10 && b < 10
    ensures AllDigits([DigitChar(a), DigitChar(b)]) && ParseNat([DigitChar(a), DigitChar(b)]) == a * 10 + b
  {
    var t := [DigitChar(a), DigitChar(b)];
    assert AllDigits(t);
    assert t[..1] == [DigitChar(a)];
    assert [DigitChar(a)][..0] == [];
    assert ParseNat([DigitChar(a)]) == a;
    assert ParseNat(t) == ParseNat(t[..1]) * 10 + DigitValue(t[1]);
  }

  /**
   * The year as the month labels show it: the last two characters of its
   * decimal numeral, so a year from 0 to 9 shows one digit and a negative
   * year above -10 shows its minus sign.
   */
  function YearText(year: int): (t: string)
    ensures 1 <= |t| <= 2
    ensures year >= 0 ==> AllDigits(t) && ParseNat(t) == year % 100 && (|t| == 2 <==> year >= 10)
    ensures -10 < year < 0 ==> t == ['-', DigitChar(-year)]
    ensures year <= -10 ==> |t| == 2 && AllDigits(t) && ParseNat(t) == (-year) % 100
  {
    var t := LastTwo(IntToString(year));
    if year <= -10 || year >= 10 then
      var n: nat := if year < 0 then -year else year;
      YearDigits(year, n, t);
      t
    else if year >= 0 then
      OneDigitYear(year, t);
      t
    else
      NegativeDigitYear(year, t);
      t
  }

  /** A year of two or more digits, either sign, shows the last two digits of its magnitude. */
  lemma YearDigits(year: int, n: nat, t: string)
    requires n >= 10 && (n == year || n == -year) && t == LastTwo(IntToString(year))
    ensures |t| == 2 && AllDigits(t) && ParseNat(t) == n % 100
  {
    var s := NatToString(n);
    var d := [DigitChar((n / 10) % 10), DigitChar(n % 10)];
    assert t == s[|s| - 2..] by {
      assert IntToString(year) == if year < 0 then "-" + s else s;
      LastTwoOfSigned(year < 0, s);
    }
    assert s[|s| - 2..] == d by {
      LastTwoDigits(n);
    }
    assert AllDigits(d) && ParseNat(d) == n % 100 by {
      TwoDigitsValue(n);
    }
  }

  /** The tens and units digits of `n` read back as `n` modulo 100. */
  lemma TwoDigitsValue(n: nat)
    ensures var t := [DigitChar((n / 10) % 10), DigitChar(n % 10)];
            AllDigits(t) && ParseNat(t) == n % 100
  {
    ParseTwo((n / 10) % 10, n % 10);
    TensUnits(n);
  }

  /** A year from -9 to -1 shows its minus sign and its digit. */
  lemma NegativeDigitYear(year: int, t: string)
    requires -10 < year < 0 && t == LastTwo(IntToString(year))
    ensures t == ['-', DigitChar(-year)]
  {
    assert IntToString(year) == ['-', DigitChar(-year)];
  }

  /** A year from 0 to 9 shows its one digit. */
  lemma OneDigitYear(year: nat, t: string)
    requires year < 10 && t == LastTwo(IntToString(year))
    ensures t == [DigitChar(year)] && AllDigits(t) && ParseNat(t) == year
  {
    ParseOne(year);
  }

  /** A minus sign in front of a numeral of two or more digits is cut off by taking the last two characters. */
  lemma LastTwoOfSigned(negative: bool, s: string)
    requires |s| >= 2
    ensures LastTwo(if negative then "-" + s else s) == s[|s| - 2..]
  {
    if negative {
      var t := "-" + s;
      assert t[|t| - 2..] == s[|s| - 2..];
    }
  }

  /** The value of a one-digit numeral. */
  lemma ParseOne(d: nat)
    requires d < 10
    ensures AllDigits([DigitChar(d)]) && ParseNat([DigitChar(d)]) == d
  {
    assert [DigitChar(d)][..0] == [];
  }

  /** The date fields the formatter reads: UTC month (0-based), UTC day and year, local hour. */
  datatype DateFields = DateFields(month: nat, day: nat, year: int, hours: nat)

  /** The `week`/`month` label: two-digit month, `/`, day of the month. */
  function DayLabel(d: DateFields): (t: string)
    ensures |t| >= 4 && t[2] == '/' && AllDigits(t[..2])
  {
    var m, n := MonthText(d.month), NatToString(d.day);
    LabelParts(m, n);
    m + "/" + n
  }

  /** The `year`/`forever` label: two-digit month, `/`, the year's last two characters. */
  function MonthLabel(d: DateFields): (t: string)
    ensures 4 <= |t| <= 5 && t[2] == '/' && AllDigits(t[..2])
  {
    var m, y := MonthText(d.month), YearText(d.year);
    LabelParts(m, y);
    m + "/" + y
  }

  /** The hour on a 12-hour clock, 12 standing for both noon and midnight. */
  function HourNumber(hours: nat): (n: nat)
    ensures 1 <= n <= 12
  {
    if hours % 12 == 0 then 12 else hours % 12
  }

  /** The label for any other period: 12-hour clock hour and `am`/`pm`. */
  function HourLabel(hours: nat): (t: string)
    ensures |t| >= 3
    ensures t[|t| - 2..] == "pm" <==> hours >= 12
  {
    NatToString(HourNumber(hours)) + (if hours >= 12 then "pm" else "am")
  }

  /** `dateFormatter(when)` applied to a time stamp with these fields. */
  function DateLabel(when: Option<string>, d: DateFields): (t: string)
    ensures XAxisName(when) == "days" ==> t == DayLabel(d)
    ensures XAxisName(when) == "months" ==> t == MonthLabel(d)
    ensures XAxisName(when) == "hours" ==> t == HourLabel(d.hours)
  {
    if when == Some("week") || when == Some("month") then DayLabel(d)
    else if when == Some("year") || when == Some("forever") then MonthLabel(d)
    else HourLabel(d.hours)
  }

  /** A day label reads back as its month (1 to 12) and day. */
  lemma DayLabelRoundTrip(d: DateFields)
    ensures var t := DayLabel(d);
            && |t| >= 4 && t[2] == '/'
            && AllDigits(t[..2]) && ParseNat(t[..2]) == d.month % 12 + 1
            && AllDigits(t[3..]) && ParseNat(t[3..]) == d.day
  {
    var t := DayLabel(d);
    assert t[..2] == MonthText(d.month);
    assert t[3..] == NatToString(d.day);
    ParseNatToString(d.day);
  }

  /**
   * A month label reads back as its month and the year modulo 100; a year
   * between -9 and -1 shows as a minus sign and its digit.
   */
  lemma MonthLabelRoundTrip(d: DateFields)
    ensures var t := MonthLabel(d);
            && |t| >= 4 && t[2] == '/'
            && AllDigits(t[..2]) && ParseNat(t[..2]) == d.month % 12 + 1
            && (d.year >= 0 ==> AllDigits(t[3..]) && ParseNat(t[3..]) == d.year % 100)
            && (d.year <= -10 ==> AllDigits(t[3..]) && ParseNat(t[3..]) == (-d.year) % 100)
            && (-10 < d.year < 0 ==> t[3..] == ['-', DigitChar(-d.year)])
  {
    var t, m, y := MonthLabel(d), MonthText(d.month), YearText(d.year);
    assert t == m + "/" + y;
    assert t[..2] == m && t[2] == '/' && t[3..] == y by {
      LabelParts(m, y);
    }
  }

  /** The parts of a `month/rest` label, for a two-character month. */
  lemma LabelParts(m: string, y: string)
    requires |m| == 2
    ensures var t := m + "/" + y; t[..2] == m && t[2] == '/' && t[3..] == y
  {
  }

  /** Reads a 12-hour label back as an hour of the day. */
  function ParseHour(t: string): Option<nat>
  {
    if |t| < 3 then None
    else
      var digits := t[..|t| - 2];
      var suffix := t[|t| - 2..];
      if !AllDigits(digits) then None
      else
        var n := ParseNat(digits);
        if n < 1 || 12 < n then None
        else if suffix == "am" then Some(n % 12)
        else if suffix == "pm" then Some(n % 12 + 12)
        else None
  }

  /** Each hour of the day gets its own label: the label determines the hour. */
  lemma HourRoundTrip(hours: nat)
    requires hours < 24
    ensures ParseHour(HourLabel(hours)) == Some(hours)
  {
    var h := HourNumber(hours);
    var digits := NatToString(h);
    var suffix := if hours >= 12 then "pm" else "am";
    var t := HourLabel(hours);
    assert t == digits + suffix;
    assert t[..|t| - 2] == digits;
    assert t[|t| - 2..] == suffix;
    ParseNatToString(h);
    assert h % 12 == hours % 12;
  }
}
