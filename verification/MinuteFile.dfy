/** The local one- and five-minute bar files (extend/local.go): fixed 32-byte records, with one zero record
    near the close of each day of one-minute bars. */
module MinuteFile {
  import opened Grouping
  import opened LittleEndian

  /** A bar and its clock reading; prices and amount in milli-yuan, volume in lots. */
  datatype Bar = Bar(year: int, month: int, day: int, minute: int, second: int,
                     open: int, high: int, low: int, close: int, amount: int, volume: int)

  /** The float32 of a price in yuan: how its 32 bits are made, and what price and amount are read from
      them. Rounding is left open; what matters is that zero, and only zero, is stored as zero. */
  datatype Codec = Codec(bits: int -> Word, price: Word -> int, amount: Word -> int, isZero: Word -> bool)

  ghost predicate KeepsZero(c: Codec) {
    && c.bits(0) == 0
    && forall x :: c.isZero(c.bits(x)) <==> x == 0
  }

  /** The fields of one record. */
  datatype Record = Record(date: HalfWord, minute: HalfWord, open: Word, high: Word, low: Word, close: Word,
                           amount: Word, volume: Word)

  const SIZE: nat := 32

  function RecordBytes(r: Record): (bs: Bytes)
    ensures |bs| == SIZE
  {
    PutUint16(r.date) + PutUint16(r.minute) + PutUint32(r.open) + PutUint32(r.high) + PutUint32(r.low)
    + PutUint32(r.close) + PutUint32(r.amount) + PutUint32(r.volume) + [0, 0, 0, 0]
  }

  function ParseRecord(rec: Bytes): Record
    requires |rec| == SIZE
  {
    Record(Uint16(rec[0..2]), Uint16(rec[2..4]), Uint32(rec[4..8]), Uint32(rec[8..12]), Uint32(rec[12..16]),
           Uint32(rec[16..20]), Uint32(rec[20..24]), Uint32(rec[24..28]))
  }

  lemma RecordSurvives(r: Record)
    ensures ParseRecord(RecordBytes(r)) == r
  {
    var bs := RecordBytes(r);
    assert bs[0..2] == PutUint16(r.date) && bs[2..4] == PutUint16(r.minute);
    assert bs[4..8] == PutUint32(r.open) && bs[8..12] == PutUint32(r.high);
    assert bs[12..16] == PutUint32(r.low) && bs[16..20] == PutUint32(r.close);
    assert bs[20..24] == PutUint32(r.amount) && bs[24..28] == PutUint32(r.volume);
    HalfWordSurvivesBytes(r.date);
    HalfWordSurvivesBytes(r.minute);
    WordSurvivesBytes(r.open);
    WordSurvivesBytes(r.high);
    WordSurvivesBytes(r.low);
    WordSurvivesBytes(r.close);
    WordSurvivesBytes(r.amount);
    WordSurvivesBytes(r.volume);
  }

  /** The date field: sixteen bits, wrapping around. */
  function DateField(year: int, month: int, day: int): HalfWord {
    ((year - 2004) * 2048 + month * 100 + day) % 0x1_0000
  }

  function YearOf(d: HalfWord): int { d / 2048 + 2004 }
  function MonthOf(d: HalfWord): int { d % 2048 / 100 }
  function DayOfMonth(d: HalfWord): int { d % 2048 % 100 }

  /** A date comes back from its field exactly when its year is one of the 32 the field has room for. */
  lemma DateSurvives(year: int, month: int, day: int)
    requires 1 <= month <= 12 && 1 <= day <= 31
    ensures var d := DateField(year, month, day);
      (YearOf(d) == year && MonthOf(d) == month && DayOfMonth(d) == day) <==> 2004 <= year <= 2035
  {
    if 2004 <= year <= 2035 {
      FieldParts(year - 2004, month * 100 + day);
      DayParts(month, day);
    } else {
      FieldYear(DateField(year, month, day));
    }
  }

  lemma FieldParts(y: int, r: int)
    requires 0 <= y < 32 && 0 <= r < 2048
    ensures var d := (y * 2048 + r) % 0x1_0000; d / 2048 == y && d % 2048 == r
  {
    assert (y * 2048 + r) % 0x1_0000 == y * 2048 + r;
  }

  lemma DayParts(month: int, day: int)
    requires 0 <= day < 100
    ensures (month * 100 + day) / 100 == month && (month * 100 + day) % 100 == day
  {
  }

  lemma FieldYear(d: HalfWord)
    ensures 2004 <= YearOf(d) <= 2035
  {
  }

  /** toFileVolume: lots for an index, shares for a stock, in 32 bits. */
  function ToFileVolume(volume: int, index: bool): Word {
    if index then volume % 0x1_0000_0000 else volume * 100 % 0x1_0000_0000
  }

  function FromFileVolume(w: Word, index: bool): int { if index then w else w / 100 }

  predicate VolumeFits(volume: int, index: bool) {
    0 <= volume <= (if index then 0xFFFF_FFFF else 42949672)
  }

  /** A volume comes back exactly when it fits. */
  lemma VolumeSurvives(volume: int, index: bool)
    ensures FromFileVolume(ToFileVolume(volume, index), index) == volume <==> VolumeFits(volume, index)
  {
  }

  function Encoded(k: Bar, index: bool, c: Codec): Record {
    Record(DateField(k.year, k.month, k.day), k.minute % 0x1_0000, c.bits(k.open), c.bits(k.high), c.bits(k.low),
           c.bits(k.close), c.bits(k.amount), ToFileVolume(k.volume, index))
  }

  /** The placeholder: 14:59 of the day, at the bar's close, with nothing traded. */
  function Placeholder(k: Bar, c: Codec): Record {
    Record(DateField(k.year, k.month, k.day), 899, c.bits(k.close), c.bits(k.close), c.bits(k.close),
           c.bits(k.close), 0, 0)
  }

  function Decoded(r: Record, index: bool, c: Codec): Bar {
    Bar(YearOf(r.date), MonthOf(r.date), DayOfMonth(r.date), r.minute / 60 * 60 + r.minute % 60, 0,
        c.price(r.open), c.price(r.high), c.price(r.low), c.price(r.close), c.amount(r.amount),
        FromFileVolume(r.volume, index))
  }

  predicate Skipped(r: Record, index: bool, c: Codec) {
    r.minute >= 898 && c.isZero(r.amount) && FromFileVolume(r.volume, index) == 0
  }

  /** dayHasTailPlaceholder, for one bar: nothing traded at or after 14:58. */
  predicate IsTail(k: Bar) { k.minute >= 898 && k.amount == 0 && k.volume == 0 }

  function NotTail(): Bar -> bool { (k: Bar) => !IsTail(k) }

  predicate HasTail(day: seq<Bar>) { exists i :: 0 <= i < |day| && IsTail(day[i]) }

  predicate SameDay(a: Bar, b: Bar) { a.year == b.year && a.month == b.month && a.day == b.day }

  /** The length of the run of bars that share the first bar's day. */
  function RunLength(ks: seq<Bar>): (n: nat)
    requires ks != []
    ensures 1 <= n <= |ks|
    ensures forall i :: 0 <= i < n ==> SameDay(ks[i], ks[0])
    ensures n < |ks| ==> !SameDay(ks[n], ks[0])
  {
    if |ks| == 1 then 1
    else if !SameDay(ks[|ks| - 1], ks[0]) || RunLength(ks[..|ks| - 1]) < |ks| - 1 then RunLength(ks[..|ks| - 1])
    else |ks|
  }

  /** One day's records: the placeholder, if one is due, goes before the day's last bar. */
  function DayRecords(day: seq<Bar>, index: bool, placeholder: bool, c: Codec): seq<Record>
    requires day != []
  {
    var n := |day| - 1;
    var due := placeholder && !HasTail(day);
    Records(day[..n], index, c) + (if due then [Placeholder(day[n], c)] else []) + [Encoded(day[n], index, c)]
  }

  function Records(ks: seq<Bar>, index: bool, c: Codec): (rs: seq<Record>)
    ensures |rs| == |ks|
  {
    seq(|ks|, i requires 0 <= i < |ks| => Encoded(ks[i], index, c))
  }

  function FileRecords(ks: seq<Bar>, index: bool, placeholder: bool, c: Codec): seq<Record> {
    if ks == [] then []
    else
      var n := RunLength(ks);
      DayRecords(ks[..n], index, placeholder, c) + FileRecords(ks[n..], index, placeholder, c)
  }

  function Flatten(rs: seq<Record>): (bs: Bytes)
    ensures |bs| == SIZE * |rs|
  {
    if rs == [] then [] else RecordBytes(rs[0]) + Flatten(rs[1..])
  }

  lemma {:induction false} FlattenConcat(a: seq<Record>, b: seq<Record>)
    ensures Flatten(a + b) == Flatten(a) + Flatten(b)
  {
    if a == [] {
      assert a + b == b;
    } else {
      assert (a + b)[1..] == a[1..] + b;
      FlattenConcat(a[1..], b);
    }
  }

  // ---------------------------------------------------------------- the bytes

  /** Where the fields of a record lie. */
  lemma RecordLayout(r: Record)
    ensures var bs := RecordBytes(r);
      && Uint16(bs[0..2]) == r.date && Uint16(bs[2..4]) == r.minute
      && Uint32(bs[4..8]) == r.open && Uint32(bs[8..12]) == r.high
      && Uint32(bs[12..16]) == r.low && Uint32(bs[16..20]) == r.close
      && Uint32(bs[20..24]) == r.amount && Uint32(bs[24..28]) == r.volume && bs[28..32] == [0, 0, 0, 0]
  {
    RecordSurvives(r);
    assert ParseRecord(RecordBytes(r)) == r;
  }

  /** What a bar is written as, if there is room for its date and volume. */
  lemma BarLayout(k: Bar, index: bool, c: Codec)
    requires 1 <= k.month <= 12 && 1 <= k.day <= 31 && 0 <= k.minute < 1440
    requires 2004 <= k.year <= 2035 && VolumeFits(k.volume, index)
    ensures var r := Encoded(k, index, c);
      && r.date == (k.year - 2004) * 2048 + k.month * 100 + k.day && r.minute == k.minute
      && r.open == c.bits(k.open) && r.high == c.bits(k.high) && r.low == c.bits(k.low) && r.close == c.bits(k.close)
      && r.amount == c.bits(k.amount) && r.volume == if index then k.volume else k.volume * 100
  {
  }

  lemma {:induction false} RecordAt(rs: seq<Record>, j: nat)
    requires j < |rs|
    ensures Flatten(rs)[32 * j..32 * j + 32] == RecordBytes(rs[j])
  {
    var first, rest := RecordBytes(rs[0]), Flatten(rs[1..]);
    if j == 0 {
      assert (first + rest)[0..32] == first;
    } else {
      RecordAt(rs[1..], j - 1);
      assert (first + rest)[32 * j..32 * j + 32] == rest[32 * (j - 1)..32 * (j - 1) + 32];
    }
  }

  /** The records of a day without a zero record near the close, the placeholder before the last. */
  lemma RecordsOfOneDay(day: seq<Bar>, index: bool, c: Codec) returns (rs: seq<Record>)
    requires day != [] && RunLength(day) == |day| && !HasTail(day)
    ensures rs == FileRecords(day, index, true, c) && |rs| == |day| + 1
    ensures forall j :: 0 <= j < |day| - 1 ==> rs[j] == Encoded(day[j], index, c)
    ensures rs[|day| - 1] == Placeholder(day[|day| - 1], c) && rs[|day|] == Encoded(day[|day| - 1], index, c)
  {
    assert day[..|day|] == day && day[|day|..] == [];
    rs := DayRecords(day, index, true, c);
    assert FileRecords(day, index, true, c) == rs + [];
  }

  /** The bytes of a record of the same date as k's, at minute 899 of the day, with k's close for every price and
      nothing else. */
  ghost predicate StandsBefore(p: Bytes, k: Bar, index: bool, c: Codec) {
    && |p| == 32 && Uint16(p[0..2]) == Encoded(k, index, c).date && Uint16(p[2..4]) == 899
    && Uint32(p[4..8]) == c.bits(k.close) && Uint32(p[8..12]) == c.bits(k.close)
    && Uint32(p[12..16]) == c.bits(k.close) && Uint32(p[16..20]) == c.bits(k.close)
    && forall i :: 20 <= i < 32 ==> p[i] == 0
  }

  lemma PlaceholderLayout(k: Bar, index: bool, c: Codec)
    ensures StandsBefore(RecordBytes(Placeholder(k, c)), k, index, c)
  {
    RecordLayout(Placeholder(k, c));
    var p := RecordBytes(Placeholder(k, c));
    assert p[20..24] == PutUint32(0) && p[24..28] == PutUint32(0);
    assert forall i :: 20 <= i < 24 ==> p[i] == p[20..24][i - 20];
    assert forall i :: 24 <= i < 28 ==> p[i] == p[24..28][i - 24];
  }

  /** The file of one day of one-minute bars none of which traded nothing at or after 14:58: its bars in order, with the
      placeholder before the last of them. */
  lemma FileOfOneDay(day: seq<Bar>, index: bool, c: Codec, n: nat) returns (file: Bytes)
    requires n + 1 == |day| && RunLength(day) == |day| && !HasTail(day)
    ensures file == Flatten(FileRecords(day, index, true, c)) && |file| == 32 * |day| + 32
    ensures forall j :: 0 <= j < n ==> file[32 * j..32 * j + 32] == RecordBytes(Encoded(day[j], index, c))
    ensures StandsBefore(file[32 * n..32 * n + 32], day[n], index, c)
    ensures file[32 * (n + 1)..32 * (n + 1) + 32] == RecordBytes(Encoded(day[n], index, c))
  {
    var rs := RecordsOfOneDay(day, index, c);
    file := Flatten(rs);
    forall j: nat | j < |rs| ensures file[32 * j..32 * j + 32] == RecordBytes(rs[j]) {
      RecordAt(rs, j);
    }
    PlaceholderLayout(day[n], index, c);
    assert rs[n] == Placeholder(day[n], c) && rs[n + 1] == Encoded(day[n], index, c);
  }

  method DayHasTailPlaceholder(day: seq<Bar>) returns (found: bool)
    ensures found == HasTail(day)
  {
    for i := 0 to |day|
      invariant forall j :: 0 <= j < i ==> !IsTail(day[j])
    {
      if day[i].minute >= 898 && day[i].amount == 0 && day[i].volume == 0 {
        return true;
      }
    }
    found := false;
  }

  lemma RecordsSnoc(ks: seq<Bar>, j: nat, index: bool, c: Codec)
    requires j < |ks|
    ensures Records(ks[..j + 1], index, c) == Records(ks[..j], index, c) + [Encoded(ks[j], index, c)]
  {
  }

  lemma AppendRecord(rs: seq<Record>, r: Record)
    ensures Flatten(rs + [r]) == Flatten(rs) + RecordBytes(r)
  {
    FlattenConcat(rs, [r]);
    assert [r][1..] == [] && Flatten([r]) == RecordBytes(r) + [];
  }

  method WriteDay(day: seq<Bar>, index: bool, placeholder: bool, c: Codec) returns (bs: Bytes)
    requires day != []
    ensures bs == Flatten(DayRecords(day, index, placeholder, c))
  {
    var tail := DayHasTailPlaceholder(day);
    var needPlaceholder := placeholder && !tail;
    ghost var rs: seq<Record> := [];
    bs := [];
    for j := 0 to |day|
      invariant bs == Flatten(rs)
      invariant rs == if j < |day| then Records(day[..j], index, c) else DayRecords(day, index, placeholder, c)
    {
      if needPlaceholder && j == |day| - 1 {
        AppendRecord(rs, Placeholder(day[j], c));
        bs := bs + RecordBytes(Placeholder(day[j], c));
        rs := rs + [Placeholder(day[j], c)];
      }
      AppendRecord(rs, Encoded(day[j], index, c));
      RecordsSnoc(day, j, index, c);
      bs := bs + RecordBytes(Encoded(day[j], index, c));
      rs := rs + [Encoded(day[j], index, c)];
    }
  }

  lemma FirstDay(ks: seq<Bar>, n: nat, index: bool, placeholder: bool, c: Codec)
    requires ks != [] && n == RunLength(ks)
    ensures Flatten(FileRecords(ks, index, placeholder, c))
         == Flatten(DayRecords(ks[..n], index, placeholder, c)) + Flatten(FileRecords(ks[n..], index, placeholder, c))
  {
    FlattenConcat(DayRecords(ks[..n], index, placeholder, c), FileRecords(ks[n..], index, placeholder, c));
  }

  lemma NextDay(ks: seq<Bar>, start: nat, end: nat, index: bool, placeholder: bool, c: Codec)
    requires start < end <= |ks|
    requires forall i :: start <= i < end ==> SameDay(ks[i], ks[start])
    requires end < |ks| ==> !SameDay(ks[end], ks[start])
    ensures Flatten(FileRecords(ks[start..], index, placeholder, c))
         == Flatten(DayRecords(ks[start..end], index, placeholder, c))
            + Flatten(FileRecords(ks[end..], index, placeholder, c))
  {
    var rest, n := ks[start..], end - start;
    RunIsTheDay(rest, n);
    FirstDay(rest, n, index, placeholder, c);
    assert rest[..n] == ks[start..end];
    assert rest[n..] == ks[end..];
  }

  /** writeMinute. */
  method WriteMinute(ks: seq<Bar>, index: bool, placeholder: bool, c: Codec) returns (bs: Bytes)
    ensures bs == Flatten(FileRecords(ks, index, placeholder, c))
  {
    bs := [];
    var start := 0;
    ghost var file := Flatten(FileRecords(ks, index, placeholder, c));
    ghost var rest := file;
    assert ks[0..] == ks;
    while start < |ks|
      invariant 0 <= start <= |ks|
      invariant rest == Flatten(FileRecords(ks[start..], index, placeholder, c))
      invariant bs + rest == file
    {
      var day;
      start, day, rest := WriteNextDay(ks, start, index, placeholder, c, rest);
      Reassociate(bs, day, rest);
      bs := bs + day;
    }
    assert ks[start..] == [];
  }

  /** One turn of writeMinute's loop. */
  method WriteNextDay(ks: seq<Bar>, start: nat, index: bool, placeholder: bool, c: Codec, ghost before: Bytes)
    returns (end: nat, day: Bytes, ghost rest: Bytes)
    requires start < |ks| && before == Flatten(FileRecords(ks[start..], index, placeholder, c))
    ensures start < end <= |ks|
    ensures rest == Flatten(FileRecords(ks[end..], index, placeholder, c))
    ensures before == day + rest
  {
    end := EndOfDay(ks, start);
    NextDay(ks, start, end, index, placeholder, c);
    day := WriteDay(ks[start..end], index, placeholder, c);
    rest := Flatten(FileRecords(ks[end..], index, placeholder, c));
  }

  /** Where the run of bars that starts at `start` ends. */
  method EndOfDay(ks: seq<Bar>, start: nat) returns (end: nat)
    requires start < |ks|
    ensures start < end <= |ks|
    ensures forall i :: start <= i < end ==> SameDay(ks[i], ks[start])
    ensures end < |ks| ==> !SameDay(ks[end], ks[start])
  {
    end := start + 1;
    while end < |ks| && SameDay(ks[end], ks[start])
      invariant start < end <= |ks|
      invariant forall i :: start <= i < end ==> SameDay(ks[i], ks[start])
    {
      end := end + 1;
    }
  }

  lemma RunIsTheDay(ks: seq<Bar>, n: nat)
    requires 1 <= n <= |ks|
    requires forall i :: 0 <= i < n ==> SameDay(ks[i], ks[0])
    requires n < |ks| ==> !SameDay(ks[n], ks[0])
    ensures RunLength(ks) == n
  {
  }

  function ReadBack(rs: seq<Record>, index: bool, skip: bool, c: Codec): seq<Bar> {
    if rs == [] then []
    else (if skip && Skipped(rs[0], index, c) then [] else [Decoded(rs[0], index, c)])
         + ReadBack(rs[1..], index, skip, c)
  }

  /** The whole records at the front of a file. */
  function Parse(bs: Bytes): seq<Record> {
    if |bs| < SIZE then [] else [ParseRecord(bs[..SIZE])] + Parse(bs[SIZE..])
  }

  /** What is still to come of a file from position i on. */
  function Ahead(bs: Bytes, i: nat, index: bool, skip: bool, c: Codec): seq<Bar>
    requires i <= |bs|
  {
    ReadBack(Parse(bs[i..]), index, skip, c)
  }

  lemma NextRecord(bs: Bytes, i: nat, index: bool, skip: bool, c: Codec, rec: Record)
    requires i + SIZE <= |bs| && rec == ParseRecord(bs[i..i + SIZE])
    ensures Ahead(bs, i, index, skip, c)
         == (if skip && Skipped(rec, index, c) then [] else [Decoded(rec, index, c)])
            + Ahead(bs, i + SIZE, index, skip, c)
  {
    var rest := bs[i..];
    assert rest[..SIZE] == bs[i..i + SIZE];
    assert rest[SIZE..] == bs[i + SIZE..];
  }

  /** readMinute. */
  method ReadMinute(bs: Bytes, index: bool, skip: bool, c: Codec) returns (ks: seq<Bar>)
    ensures ks == ReadBack(Parse(bs), index, skip, c)
  {
    ks := [];
    var i := 0;
    ghost var all := Ahead(bs, 0, index, skip, c);
    ghost var rest := all;
    assert bs[0..] == bs;
    while i + SIZE <= |bs|
      invariant 0 <= i <= |bs|
      invariant rest == Ahead(bs, i, index, skip, c) && ks + rest == all
    {
      ks, rest := ReadOne(bs, i, index, skip, c, ks, rest);
      i := i + SIZE;
    }
    assert rest == [];
  }

  /** One turn of readMinute's loop. */
  method ReadOne(bs: Bytes, i: nat, index: bool, skip: bool, c: Codec, before: seq<Bar>, ghost ahead: seq<Bar>)
    returns (ks: seq<Bar>, ghost rest: seq<Bar>)
    requires i + SIZE <= |bs| && ahead == Ahead(bs, i, index, skip, c)
    ensures rest == Ahead(bs, i + SIZE, index, skip, c) && ks + rest == before + ahead
  {
    ks := before;
    var rec := ParseRecord(bs[i..i + SIZE]);
    rest := Ahead(bs, i + SIZE, index, skip, c);
    NextRecord(bs, i, index, skip, c, rec);
    if skip && Skipped(rec, index, c) {
      assert [] + rest == rest;
      return;
    }
    ks := ks + [Decoded(rec, index, c)];
  }

  lemma {:induction false} ParseFlatten(rs: seq<Record>)
    ensures Parse(Flatten(rs)) == rs
  {
    if rs != [] {
      var bs := Flatten(rs);
      RecordSurvives(rs[0]);
      assert bs[..SIZE] == RecordBytes(rs[0]) && bs[SIZE..] == Flatten(rs[1..]);
      ParseFlatten(rs[1..]);
    }
  }

  // ---------------------------------------------------------------- the round trip

  /** A date and a time of day as a clock shows them. */
  predicate Dated(k: Bar) { 1 <= k.month <= 12 && 1 <= k.day <= 31 && 0 <= k.minute < 1440 }

  ghost predicate AllDated(ks: seq<Bar>) { forall i :: 0 <= i < |ks| ==> Dated(ks[i]) }

  /** What the file has room for. */
  predicate Storable(k: Bar, index: bool) { Dated(k) && 2004 <= k.year <= 2035 && VolumeFits(k.volume, index) }

  ghost predicate AllStorable(ks: seq<Bar>, index: bool) { forall i :: 0 <= i < |ks| ==> Storable(ks[i], index) }

  ghost predicate WholeMinutes(ks: seq<Bar>) { forall i :: 0 <= i < |ks| ==> ks[i].second == 0 }

  /** The bar with its prices and amount as float32 has them. */
  function Rounded(k: Bar, c: Codec): Bar {
    k.(open := c.price(c.bits(k.open)), high := c.price(c.bits(k.high)), low := c.price(c.bits(k.low)),
       close := c.price(c.bits(k.close)), amount := c.amount(c.bits(k.amount)))
  }

  function AllRounded(ks: seq<Bar>, c: Codec): (r: seq<Bar>)
    ensures |r| == |ks|
  {
    seq(|ks|, i requires 0 <= i < |ks| => Rounded(ks[i], c))
  }

  /** The bar as the file should keep it: the file has no seconds. */
  function AsStored(k: Bar, c: Codec): Bar { Rounded(k, c).(second := 0) }

  function AllAsStored(ks: seq<Bar>, c: Codec): (r: seq<Bar>)
    ensures |r| == |ks|
  {
    seq(|ks|, i requires 0 <= i < |ks| => AsStored(ks[i], c))
  }

  /** A bar comes back from its record exactly when the file has room for it; a zero record is always skipped. */
  lemma BarSurvives(k: Bar, index: bool, c: Codec)
    requires Dated(k)
    ensures Decoded(Encoded(k, index, c), index, c) == AsStored(k, c) <==> Storable(k, index)
    ensures KeepsZero(c) && IsTail(k) ==> Skipped(Encoded(k, index, c), index, c)
    ensures KeepsZero(c) && Storable(k, index) && Skipped(Encoded(k, index, c), index, c) ==> IsTail(k)
  {
    DateSurvives(k.year, k.month, k.day);
    VolumeSurvives(k.volume, index);
  }

  lemma {:induction false} ReadBackConcat(a: seq<Record>, b: seq<Record>, index: bool, skip: bool, c: Codec)
    ensures ReadBack(a + b, index, skip, c) == ReadBack(a, index, skip, c) + ReadBack(b, index, skip, c)
  {
    if a == [] {
      assert a + b == b;
    } else {
      assert (a + b)[1..] == a[1..] + b;
      ReadBackConcat(a[1..], b, index, skip, c);
    }
  }

  lemma PlaceholderIsSkipped(k: Bar, index: bool, c: Codec)
    requires KeepsZero(c)
    ensures ReadBack([Placeholder(k, c)], index, true, c) == []
  {
    assert c.isZero(c.bits(0));
    assert [Placeholder(k, c)][1..] == [];
  }

  lemma SkippedInTheMiddle(a: seq<Record>, p: seq<Record>, z: seq<Record>, index: bool, skip: bool, c: Codec)
    requires ReadBack(p, index, skip, c) == []
    ensures ReadBack(a + p + z, index, skip, c) == ReadBack(a + z, index, skip, c)
  {
    ReadBackConcat(a + p, z, index, skip, c);
    ReadBackConcat(a, p, index, skip, c);
    ReadBackConcat(a, z, index, skip, c);
  }

  lemma DayReadsBack(day: seq<Bar>, index: bool, placeholder: bool, c: Codec)
    requires day != [] && (placeholder ==> KeepsZero(c))
    ensures ReadBack(DayRecords(day, index, placeholder, c), index, placeholder, c)
         == ReadBack(Records(day, index, c), index, placeholder, c)
  {
    var n := |day| - 1;
    var a, z := Records(day[..n], index, c), [Encoded(day[n], index, c)];
    var p: seq<Record> := if placeholder && !HasTail(day) then [Placeholder(day[n], c)] else [];
    if p != [] {
      PlaceholderIsSkipped(day[n], index, c);
    }
    SkippedInTheMiddle(a, p, z, index, placeholder, c);
    assert a + z == Records(day, index, c);
  }

  /** The first day of a file and the rest of it. */
  lemma FileSplits(ks: seq<Bar>, index: bool, placeholder: bool, c: Codec) returns (day: seq<Bar>, rest: seq<Bar>)
    requires ks != []
    ensures day != [] && |rest| < |ks| && ks == day + rest
    ensures Records(ks, index, c) == Records(day, index, c) + Records(rest, index, c)
    ensures FileRecords(ks, index, placeholder, c)
         == DayRecords(day, index, placeholder, c) + FileRecords(rest, index, placeholder, c)
  {
    var n := RunLength(ks);
    day, rest := ks[..n], ks[n..];
  }

  /** The placeholders leave no trace: a file reads back like the records of its bars alone. */
  lemma {:induction false} PlaceholdersVanish(ks: seq<Bar>, index: bool, placeholder: bool, c: Codec)
    requires placeholder ==> KeepsZero(c)
    ensures ReadBack(FileRecords(ks, index, placeholder, c), index, placeholder, c)
         == ReadBack(Records(ks, index, c), index, placeholder, c)
    decreases |ks|
  {
    if ks != [] {
      var day, rest := FileSplits(ks, index, placeholder, c);
      PlaceholdersVanish(rest, index, placeholder, c);
      DayReadsBack(day, index, placeholder, c);
      ReadBackConcat(DayRecords(day, index, placeholder, c),
                     FileRecords(rest, index, placeholder, c), index, placeholder, c);
      ReadBackConcat(Records(day, index, c), Records(rest, index, c), index, placeholder, c);
    }
  }

  /** The bars that come back from the file that is written of ks. */
  function Back(ks: seq<Bar>, index: bool, placeholder: bool, c: Codec): seq<Bar> {
    ReadBack(Parse(Flatten(FileRecords(ks, index, placeholder, c))), index, placeholder, c)
  }

  lemma BackIsRecords(ks: seq<Bar>, index: bool, placeholder: bool, c: Codec)
    requires placeholder ==> KeepsZero(c)
    ensures Back(ks, index, placeholder, c) == ReadBack(Records(ks, index, c), index, placeholder, c)
  {
    ParseFlatten(FileRecords(ks, index, placeholder, c));
    PlaceholdersVanish(ks, index, placeholder, c);
  }

  /** What a reader should see of the bars that were written. */
  function Kept(ks: seq<Bar>, skip: bool): seq<Bar> { if skip then Filter(ks, NotTail()) else ks }

  lemma KeptMembers(ks: seq<Bar>, skip: bool)
    requires AllDated(ks)
    ensures AllDated(Kept(ks, skip))
    ensures skip ==> forall i :: 0 <= i < |Kept(ks, skip)| ==> !IsTail(Kept(ks, skip)[i])
  {
    FilterMembers(ks, NotTail());
    var kept := Kept(ks, skip);
    forall i | 0 <= i < |kept| ensures Dated(kept[i]) && (skip ==> !IsTail(kept[i])) {
      assert kept[i] in kept;
    }
  }

  lemma ReadRecord(k: Bar, rest: seq<Bar>, index: bool, skip: bool, c: Codec)
    ensures ReadBack(Records([k] + rest, index, c), index, skip, c)
         == (if skip && Skipped(Encoded(k, index, c), index, c) then [] else [Decoded(Encoded(k, index, c), index, c)])
            + ReadBack(Records(rest, index, c), index, skip, c)
  {
    assert Records([k] + rest, index, c)[1..] == Records(rest, index, c);
  }

  /** Nor do the zero records among the bars. */
  lemma {:induction false} TailsVanish(ks: seq<Bar>, index: bool, c: Codec)
    requires AllDated(ks) && KeepsZero(c)
    ensures ReadBack(Records(ks, index, c), index, true, c)
         == ReadBack(Records(Filter(ks, NotTail()), index, c), index, true, c)
  {
    if ks != [] {
      var k, rest := ks[0], ks[1..];
      BarSurvives(k, index, c);
      TailsVanish(rest, index, c);
      ReadRecord(k, rest, index, true, c);
      assert ks == [k] + rest;
      if IsTail(k) {
        assert Filter(ks, NotTail()) == Filter(rest, NotTail());
      } else {
        ReadRecord(k, Filter(rest, NotTail()), index, true, c);
      }
    }
  }

  lemma {:induction false} NoMoreThanWritten(rs: seq<Record>, index: bool, skip: bool, c: Codec)
    ensures |ReadBack(rs, index, skip, c)| <= |rs|
  {
    if rs != [] {
      NoMoreThanWritten(rs[1..], index, skip, c);
    }
  }

  lemma HeadAndTail<T>(x: T, xs: seq<T>, y: T, ys: seq<T>)
    ensures [x] + xs == [y] + ys <==> x == y && xs == ys
  {
    if [x] + xs == [y] + ys {
      assert xs == ([x] + xs)[1..] == ([y] + ys)[1..] == ys;
      assert x == ([x] + xs)[0] == ([y] + ys)[0] == y;
    }
  }

  lemma AllStorableSplits(k: Bar, rest: seq<Bar>, index: bool, c: Codec)
    ensures AllStorable([k] + rest, index) <==> Storable(k, index) && AllStorable(rest, index)
    ensures AllAsStored([k] + rest, c) == [AsStored(k, c)] + AllAsStored(rest, c)
  {
    var ks := [k] + rest;
    if AllStorable(ks, index) {
      assert ks[0] == k;
      forall i | 0 <= i < |rest| ensures Storable(rest[i], index) {
        assert ks[i + 1] == rest[i];
      }
    }
  }

  /** Records of bars that are no zero records read back as those bars exactly when each has room in the file. */
  lemma {:induction false} RecordsReadBack(ks: seq<Bar>, index: bool, skip: bool, c: Codec)
    requires AllDated(ks) && (skip ==> KeepsZero(c) && forall i :: 0 <= i < |ks| ==> !IsTail(ks[i]))
    ensures ReadBack(Records(ks, index, c), index, skip, c) == AllAsStored(ks, c) <==> AllStorable(ks, index)
  {
    if ks != [] {
      var k, rest := ks[0], ks[1..];
      assert ks == [k] + rest;
      BarSurvives(k, index, c);
      RecordsReadBack(rest, index, skip, c);
      ReadRecord(k, rest, index, skip, c);
      AllStorableSplits(k, rest, index, c);
      var back := ReadBack(Records(rest, index, c), index, skip, c);
      NoMoreThanWritten(Records(rest, index, c), index, skip, c);
      HeadAndTail(Decoded(Encoded(k, index, c), index, c), back, AsStored(k, c), AllAsStored(rest, c));
    }
  }

  lemma {:induction false} NoSeconds(rs: seq<Record>, index: bool, skip: bool, c: Codec)
    ensures WholeMinutes(ReadBack(rs, index, skip, c))
  {
    if rs != [] {
      NoSeconds(rs[1..], index, skip, c);
    }
  }

  /** A list without seconds is the rounded bars exactly when those have none and it is the bars as stored. */
  lemma SecondsAreDropped(back: seq<Bar>, ks: seq<Bar>, c: Codec)
    requires WholeMinutes(back)
    ensures back == AllRounded(ks, c) <==> back == AllAsStored(ks, c) && WholeMinutes(ks)
  {
    if back == AllRounded(ks, c) {
      forall i | 0 <= i < |ks| ensures ks[i].second == 0 {
        assert back[i] == Rounded(ks[i], c);
      }
    }
  }

  /** Writing and reading, with and without placeholders: what comes back is every bar that is due, as stored, if
      and only if there is room for each of them, and as it was if and only if they have no seconds besides. */
  lemma FileReadsBack(ks: seq<Bar>, index: bool, placeholder: bool, c: Codec)
    requires AllDated(ks) && (placeholder ==> KeepsZero(c))
    ensures var kept := Kept(ks, placeholder);
      var back := Back(ks, index, placeholder, c);
      && (back == AllAsStored(kept, c) <==> AllStorable(kept, index))
      && (back == AllRounded(kept, c) <==> AllStorable(kept, index) && WholeMinutes(kept))
  {
    var kept := Kept(ks, placeholder);
    BackIsRecords(ks, index, placeholder, c);
    if placeholder {
      TailsVanish(ks, index, c);
    }
    KeptMembers(ks, placeholder);
    RecordsReadBack(kept, index, placeholder, c);
    NoSeconds(Records(ks, index, c), index, placeholder, c);
    SecondsAreDropped(Back(ks, index, placeholder, c), kept, c);
  }

  /** One-minute bars, of stocks or indexes, that are written and read back come back, less those that traded nothing
      at or after 14:58, if and only if these are of 2004 to 2035, their volumes fit and they have no seconds;
      seconds apart, if and only if the first two hold. */
  lemma OneMinuteRoundTrip(ks: seq<Bar>, index: bool, c: Codec)
    requires AllDated(ks) && KeepsZero(c)
    ensures forall k :: (k in Filter(ks, NotTail())
                         <==> k in ks && !(14 * 60 + 58 <= k.minute && k.amount == 0 && k.volume == 0))
    ensures var due := Filter(ks, NotTail());
      var back := Back(ks, index, true, c);
      && (back == AllAsStored(due, c) <==> AllStorable(due, index))
      && (back == AllRounded(due, c) <==> AllStorable(due, index) && WholeMinutes(due))
  {
    FileReadsBack(ks, index, true, c);
    FilterMembers(ks, NotTail());
  }

  /** Five-minute bars come back one and all under the same condition on all of them, whatever the float codec
      does. */
  lemma FiveMinuteRoundTrip(ks: seq<Bar>, index: bool, c: Codec)
    requires AllDated(ks)
    ensures var back := Back(ks, index, false, c);
      && (back == AllAsStored(ks, c) <==> AllStorable(ks, index))
      && (back == AllRounded(ks, c) <==> AllStorable(ks, index) && WholeMinutes(ks))
  {
    FileReadsBack(ks, index, false, c);
  }

  lemma OneBarBack(k: Bar, index: bool, placeholder: bool, c: Codec, k': Bar)
    requires Dated(k) && k.minute < 898 && (placeholder ==> KeepsZero(c))
    requires k' == Decoded(Encoded(k, index, c), index, c)
    ensures Back([k], index, placeholder, c) == [k']
  {
    BackIsRecords([k], index, placeholder, c);
    OneRecord(k, index, c, Encoded(k, index, c));
    OneRecordBack(Encoded(k, index, c), index, placeholder, c);
  }

  lemma OneRecord(k: Bar, index: bool, c: Codec, r: Record)
    requires r == Encoded(k, index, c)
    ensures Records([k], index, c) == [r]
  {
  }

  lemma OneRecordBack(r: Record, index: bool, skip: bool, c: Codec)
    requires r.minute < 898
    ensures ReadBack([r], index, skip, c) == [Decoded(r, index, c)]
  {
    assert [r][1..] == [];
  }

  lemma ThirtyTwoYearsEarly(k: Bar, d: HalfWord)
    requires Dated(k) && k.year == 2036 && d == DateField(k.year, k.month, k.day)
    ensures YearOf(d) == 2004 && MonthOf(d) == k.month && DayOfMonth(d) == k.day
  {
    FieldParts(0, k.month * 100 + k.day);
    DayParts(k.month, k.day);
  }

  /** A bar of 2036 comes back as one of 2004, from files of either kind. */
  lemma ABarOf2036(k: Bar, index: bool, placeholder: bool, c: Codec, k': Bar)
    requires Dated(k) && k.year == 2036 && k.minute == 600 && k.volume == 1 && (placeholder ==> KeepsZero(c))
    requires k' == AsStored(k, c).(year := 2004)
    ensures Back([k], index, placeholder, c) == [k']
  {
    ThirtyTwoYearsEarly(k, DateField(k.year, k.month, k.day));
    OneBarBack(k, index, placeholder, c, k');
  }

  /** A stock's bar of 42949673 lots comes back with none. */
  lemma ABarOfTooManyLots(k: Bar, placeholder: bool, c: Codec, k': Bar)
    requires Dated(k) && k.year == 2026 && k.minute == 600 && k.volume == 42949673 && (placeholder ==> KeepsZero(c))
    requires k' == AsStored(k, c).(volume := 0)
    ensures Back([k], false, placeholder, c) == [k']
  {
    DateSurvives(k.year, k.month, k.day);
    OneBarBack(k, false, placeholder, c, k');
  }

  /** The days, as runs of neighbouring bars, that hold no zero record of their own. */
  function RunsWithoutTail(ks: seq<Bar>): nat {
    if ks == [] then 0
    else
      var n := RunLength(ks);
      (if HasTail(ks[..n]) then 0 else 1) + RunsWithoutTail(ks[n..])
  }

  /** The file grows by one record for each such run, and by nothing else. */
  lemma {:induction false} OnePlaceholderPerRun(ks: seq<Bar>, index: bool, placeholder: bool, c: Codec)
    ensures |Flatten(FileRecords(ks, index, placeholder, c))|
         == SIZE * (|ks| + if placeholder then RunsWithoutTail(ks) else 0)
  {
    if ks != [] {
      OnePlaceholderPerRun(ks[RunLength(ks)..], index, placeholder, c);
    }
  }
}
