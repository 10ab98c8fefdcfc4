/** Packet scanners: a firewall of layers, each with a scanner sweeping up and down its range;
    a packet crossing one layer per picosecond is caught by every scanner that sits at the top
    of its layer when the packet arrives. */
module Scanners {
  import opened Common
  import opened Arith
  import opened Text
  import opened Decimal

  /** `Layer`: its depth in the firewall and the range its scanner sweeps (0 for a gap). */
  datatype Layer = Layer(depth: nat, range: nat)

  /** `Layer::default`: the layer that fills a gap. */
  const Gap: Layer := Layer(0, 0)

  /** `Layer::pos_at`: where the scanner is at `turn`. A layer without range has no scanner;
      a range of one makes the period zero, and the division panics. Otherwise the scanner
      runs down for `period` turns and back up for `period` turns. */
  function PosAt(layer: Layer, turn: nat): (r: Result<Option<nat>>)
    ensures layer.range == 0 <==> r == Ok(None)
    ensures layer.range == 1 <==> r.Err?
    ensures r.Ok? && r.value.Some? ==> r.value.value < layer.range
  {
    if layer.range == 0 then Ok(None)
    else if layer.range == 1 then Err("attempt to divide by zero")
    else
      var period := layer.range - 1;
      var base := turn / period;
      var rem := turn % period;
      Ok(Some(if base % 2 == 0 then rem else period - rem))
  }

  /** A scanner in motion: its position and whether it is heading away from the top. */
  datatype Scanner = Scanner(pos: nat, down: bool)

  /** One picosecond of a scanner in a layer whose last position is `last`: it moves one
      step, and turns round when it reaches either end. */
  function Move(last: nat, s: Scanner): Scanner
  {
    if s.down then Scanner(s.pos + 1, s.pos + 1 < last)
    else if s.pos == 0 then Scanner(0, true)
    else Scanner(s.pos - 1, s.pos - 1 == 0)
  }

  /** The scanner after `t` picoseconds, having started at the top heading down. */
  function Sweep(last: nat, t: nat): Scanner
  {
    if t == 0 then Scanner(0, true) else Move(last, Sweep(last, t - 1))
  }

  /** The sweep after `t` picoseconds, in terms of how many runs it has completed (`t / last`)
      and how far into the current run it is (`t % last`). */
  lemma {:induction false} SweepClosed(last: nat, t: nat)
    requires last >= 1
    ensures Sweep(last, t).pos == if (t / last) % 2 == 0 then t % last else last - t % last
    ensures Sweep(last, t).down == ((t / last) % 2 == 0)
  {
    if t > 0 {
      var prev := t - 1;
      SweepClosed(last, prev);
      DivModNext(prev, last, t);
    }
  }

  /** `pos_at` agrees with the step-by-step sweep of a scanner. */
  lemma PosAtSweep(layer: Layer, turn: nat)
    requires layer.range >= 2
    ensures PosAt(layer, turn) == Ok(Some(Sweep(layer.range - 1, turn).pos))
  {
    SweepClosed(layer.range - 1, turn);
  }

  /** The scanner is back where it was after a full round trip of `2 (range - 1)` turns. */
  lemma PosAtPeriodic(layer: Layer, turn: nat)
    requires layer.range >= 2
    ensures PosAt(layer, turn + 2 * (layer.range - 1)) == PosAt(layer, turn)
  {
    var period := layer.range - 1;
    var base, rem := turn / period, turn % period;
    assert turn == period * base + rem;
    DivUnique(turn + 2 * period, period, base + 2, rem);
  }

  /** A packet arriving at `turn` is caught: the scanner is at the top. */
  predicate Caught(layer: Layer, turn: nat)
  {
    PosAt(layer, turn) == Ok(Some(0))
  }

  /** A scanner is at the top exactly at the multiples of its round trip. */
  lemma CaughtIff(layer: Layer, turn: nat)
    requires layer.range >= 2
    ensures Caught(layer, turn) <==> turn % (2 * (layer.range - 1)) == 0
  {
    DoubleModZero(turn, layer.range - 1);
  }

  /** `pos_at`'s tested positions for ranges 3 and 6 (`test_layer`). */
  lemma PosAtSamples(l1: Layer, l2: Layer)
    requires l1 == Layer(0, 3) && l2 == Layer(3, 6)
    ensures PosAt(l1, 0) == Ok(Some(0)) && PosAt(l1, 1) == Ok(Some(1)) && PosAt(l1, 2) == Ok(Some(2))
    ensures PosAt(l1, 3) == Ok(Some(1)) && PosAt(l1, 4) == Ok(Some(0)) && PosAt(l1, 5) == Ok(Some(1))
    ensures PosAt(l2, 0) == Ok(Some(0)) && PosAt(l2, 1) == Ok(Some(1)) && PosAt(l2, 2) == Ok(Some(2))
    ensures PosAt(l2, 3) == Ok(Some(3)) && PosAt(l2, 4) == Ok(Some(4)) && PosAt(l2, 5) == Ok(Some(5))
  {
  }

  /** `Firewall`: its layers, the layer at index `i` crossed at picosecond `i` (plus delay). */
  datatype Firewall = Firewall(layers: seq<Layer>)

  /** One line of the input: a depth and a range. */
  datatype Entry = Entry(depth: nat, range: nat)

  /** One line of `parse`: the text before the first `: ` is the depth and the text after it,
      up to any further `: `, the range; a line without `: ` or with a piece that is no
      unsigned number panics. */
  function ParseEntry(line: string): (r: Result<Entry>)
    ensures r.Ok? ==> Find(line, ": ").Some?
  {
    match Find(line, ": ")
    case None => Err("index out of bounds: the len is 1 but the index is 1")
    case Some(i) =>
      var rest := line[i + 2..];
      var second := match Find(rest, ": ") case None => rest case Some(j) => rest[..j];
      match (ParseUnsigned(line[..i]), ParseUnsigned(second))
      case (Some(depth), Some(range)) => Ok(Entry(depth, range))
      case _ => Err("called `Result::unwrap()` on an `Err` value: ParseIntError")
  }

  /** Text without a space holds no `: `. */
  lemma NoSeparator(s: string)
    requires ' ' !in s
    ensures forall j :: !OccursAt(s, ": ", j)
  {
    forall j: nat
      ensures !OccursAt(s, ": ", j)
    {
      if j + 2 <= |s| {
        assert s[j..j + 2][1] == s[j + 1] && s[j + 1] in s;
      }
    }
  }

  /** Two space-free texts joined by `: ` are cut apart at the separator between them. */
  lemma SeparatorSplit(a: string, b: string)
    requires ' ' !in a && ' ' !in b
    ensures var s := a + ": " + b;
      Find(s, ": ") == Some(|a|) && s[..|a|] == a && s[|a| + 2..] == b && Find(b, ": ") == None
  {
    NoSeparator(b);
    forall j | 0 <= j < |a|
      ensures !OccursAt(a + ": ", ": ", j)
    {
      if j + 1 < |a| {
        assert (a + ": ")[j + 1] == a[j + 1] && a[j + 1] in a;
      } else {
        assert (a + ": ")[j + 1] == ':';
      }
    }
    FindAfterPrefix(a, ": ", b);
    var s := a + ": " + b;
    assert s[..|a|] == a;
    assert s[|a| + 2..] == b;
  }

  /** A line written as `depth: range` reads back as that entry. */
  lemma ParseEntryShow(e: Entry)
    ensures ParseEntry(ShowNat(e.depth) + ": " + ShowNat(e.range)) == Ok(e)
  {
    var a, b := ShowNat(e.depth), ShowNat(e.range);
    assert ' ' !in a by { assert forall c :: c in a ==> IsDigit(c); }
    assert ' ' !in b by { assert forall c :: c in b ==> IsDigit(c); }
    SeparatorSplit(a, b);
    ParseShowNat(e.depth);
    ParseShowNat(e.range);
  }

  /** Layers laid out so far and the depth the next layer would have. */
  datatype Layout = Layout(layers: seq<Layer>, next: nat)

  /** `count` gap layers. */
  function Gaps(count: nat): (r: seq<Layer>)
    ensures |r| == count && forall i :: 0 <= i < count ==> r[i] == Gap
  {
    seq(count, _ => Gap)
  }

  /** One entry laid out after `before`: gaps up to its depth (none when the entry is not
      deeper than the next free depth), then the entry's layer. */
  function LaidNext(before: Layout, e: Entry): Layout
  {
    var gaps := if before.next <= e.depth then e.depth - before.next else 0;
    Layout(before.layers + Gaps(gaps) + [Layer(e.depth, e.range)], e.depth + 1)
  }

  /** The layers `parse` lays out for the entries, one entry after the other. */
  function Laid(entries: seq<Entry>): Layout
  {
    if entries == [] then Layout([], 0)
    else LaidNext(Laid(entries[..|entries| - 1]), entries[|entries| - 1])
  }

  /** The entries' depths strictly increase, as in the puzzle's input. */
  predicate Ascending(entries: seq<Entry>)
  {
    forall a, b :: 0 <= a < b < |entries| ==> entries[a].depth < entries[b].depth
  }

  /** With ascending depths the layout has one layer per depth up to the deepest entry: every
      entry sits at the index of its depth, and every other index holds a gap. */
  lemma LaidPlaced(entries: seq<Entry>)
    requires Ascending(entries)
    ensures entries == [] ==> Laid(entries).layers == []
    ensures entries != [] ==> |Laid(entries).layers| == entries[|entries| - 1].depth + 1
    ensures forall k :: 0 <= k < |entries| ==>
      Laid(entries).layers[entries[k].depth] == Layer(entries[k].depth, entries[k].range)
    ensures forall j :: 0 <= j < |Laid(entries).layers| && (forall k :: 0 <= k < |entries| ==> entries[k].depth != j) ==>
      Laid(entries).layers[j] == Gap
  {
    LaidLength(entries);
    LaidEntries(entries);
    LaidGaps(entries);
  }

  /** The layout of ascending entries reaches exactly one past the deepest entry. */
  lemma {:induction false} LaidLength(entries: seq<Entry>)
    requires Ascending(entries)
    ensures |Laid(entries).layers| == Laid(entries).next
    ensures entries != [] ==> Laid(entries).next == entries[|entries| - 1].depth + 1
  {
    if entries != [] {
      var front := entries[..|entries| - 1];
      assert Ascending(front);
      LaidLength(front);
      var e := entries[|entries| - 1];
      assert Laid(front).next <= e.depth by {
        if front != [] {
          assert front[|front| - 1] == entries[|entries| - 2];
        }
      }
    }
  }

  /** Appending to ascending entries puts the gaps and the new layer after the layers so far. */
  lemma LaidAppend(entries: seq<Entry>)
    requires Ascending(entries) && entries != []
    ensures var front := entries[..|entries| - 1];
      var e := entries[|entries| - 1];
      && Ascending(front)
      && Laid(front).next <= e.depth
      && Laid(entries).layers == Laid(front).layers + Gaps(e.depth - Laid(front).next) + [Layer(e.depth, e.range)]
  {
    var front := entries[..|entries| - 1];
    assert Ascending(front);
    LaidLength(front);
    if front != [] {
      assert front[|front| - 1] == entries[|entries| - 2];
    }
  }

  /** Every ascending entry sits at the index of its depth. */
  lemma {:induction false} LaidEntries(entries: seq<Entry>)
    requires Ascending(entries)
    ensures forall k :: 0 <= k < |entries| ==>
      (entries[k].depth < |Laid(entries).layers| &&
       Laid(entries).layers[entries[k].depth] == Layer(entries[k].depth, entries[k].range))
  {
    if entries != [] {
      var front := entries[..|entries| - 1];
      LaidLength(entries);
      LaidAppend(entries);
      LaidLength(front);
      LaidEntries(front);
      var layers := Laid(entries).layers;
      forall k | 0 <= k < |front|
        ensures layers[entries[k].depth] == Layer(entries[k].depth, entries[k].range)
      {
        assert front[k] == entries[k];
        assert front[k].depth <= front[|front| - 1].depth;
      }
    }
  }

  /** Every index that is no entry's depth holds a gap. */
  lemma {:induction false} LaidGaps(entries: seq<Entry>)
    requires Ascending(entries)
    ensures forall j :: 0 <= j < |Laid(entries).layers| && (forall k :: 0 <= k < |entries| ==> entries[k].depth != j) ==>
      Laid(entries).layers[j] == Gap
  {
    if entries != [] {
      var front := entries[..|entries| - 1];
      var e := entries[|entries| - 1];
      LaidAppend(entries);
      LaidLength(front);
      LaidGaps(front);
      var before := Laid(front).layers;
      var layers := Laid(entries).layers;
      forall j | 0 <= j < |layers| && (forall k :: 0 <= k < |entries| ==> entries[k].depth != j)
        ensures layers[j] == Gap
      {
        if j < |before| {
          forall k | 0 <= k < |front|
            ensures front[k].depth != j
          {
            assert front[k] == entries[k];
          }
          assert layers[j] == before[j];
        } else {
          assert j != e.depth;
          assert j < |before| + e.depth - Laid(front).next;
        }
      }
    }
  }

  /** Input whose lines end in `"\r\n"` reads as the same entries: `lines()` drops the
      carriage returns. */
  lemma ParseEntriesCRLF(s: string)
    requires s == "0: 3\r\n1: 2\r\n"
    ensures Lines(s) == ["0: 3", "1: 2"]
    ensures MapAll(Lines(s), ParseEntry) == Ok([Entry(0, 3), Entry(1, 2)])
  {
    LinesCRLFSample(s);
    ParseSampleLines(["0: 3", "1: 2"]);
  }

  lemma LinesCRLFSample(s: string)
    requires s == "0: 3\r\n1: 2\r\n"
    ensures Lines(s) == ["0: 3", "1: 2"]
  {
    var lines := ["0: 3", "1: 2"];
    var t := CRTerminated(lines + [[]]);
    var all := lines + [[]];
    assert all[0] == "0: 3" && all[1] == "1: 2" && all[2] == [];
    assert t[0] == "0: 3" + ['\r'] == "0: 3\r";
    assert t[1] == "1: 2" + ['\r'] == "1: 2\r";
    assert t == [t[0], t[1], t[2]];
    Join3(t[0], t[1], t[2], '\n');
    assert Join(t, '\n') == "0: 3\r" + ['\n'] + "1: 2\r" + ['\n'] + [] == s;
    LinesCRLFTerminated(lines);
  }

  lemma ParseSampleLines(lines: seq<string>)
    requires lines == ["0: 3", "1: 2"]
    ensures MapAll(lines, ParseEntry) == Ok([Entry(0, 3), Entry(1, 2)])
  {
    ParseSampleLine(lines[0], 0, 3);
    ParseSampleLine(lines[1], 1, 2);
    MapAllOk(lines, ParseEntry, [Entry(0, 3), Entry(1, 2)]);
  }

  /** A one-digit depth and range, written `d: r`, read back as that entry. */
  lemma ParseSampleLine(line: string, depth: nat, range: nat)
    requires depth < 10 && range < 10
    requires line == [DigitChar(depth), ':', ' ', DigitChar(range)]
    ensures ParseEntry(line) == Ok(Entry(depth, range))
  {
    assert ShowNat(depth) == [DigitChar(depth)];
    assert ShowNat(range) == [DigitChar(range)];
    assert line == ShowNat(depth) + ": " + ShowNat(range);
    ParseEntryShow(Entry(depth, range));
  }

  /** `Firewall::parse`: reads the entries line by line, laying out each entry after the
      layers so far; the first line that does not parse panics. */
  method Parse(s: string) returns (r: Result<Firewall>)
    ensures MapAll(Lines(s), ParseEntry).Err? ==> r == Err(MapAll(Lines(s), ParseEntry).msg)
    ensures MapAll(Lines(s), ParseEntry).Ok? ==> r == Ok(Firewall(Laid(MapAll(Lines(s), ParseEntry).value).layers))
  {
    var lines := Lines(s);
    var layers: seq<Layer> := [];
    var current: nat := 0;
    ghost var entries: seq<Entry> := [];
    var i := 0;
    while i < |lines|
      invariant 0 <= i <= |lines|
      invariant PrefixConverted(lines, i, entries, ParseEntry)
      invariant Laid(entries).layers == layers && Laid(entries).next == current
    {
      var parsed := ParseEntry(lines[i]);
      if parsed.Err? {
        PrefixConvertedErr(lines, i, entries, ParseEntry);
        return Err(parsed.msg);
      }
      var entry := parsed.value;
      PrefixConvertedNext(lines, i, i + 1, entries, entry, ParseEntry);
      LaidSnoc(entries, entry);
      layers, current := PushEntry(layers, current, entry);
      entries := entries + [entry];
      i := i + 1;
    }
    PrefixConvertedAll(lines, entries, ParseEntry);
    return Ok(Firewall(layers));
  }

  /** The body of `parse`'s loop: pushes gap layers up to the entry's depth, then its layer. */
  method PushEntry(layers: seq<Layer>, current: nat, entry: Entry) returns (after: seq<Layer>, next: nat)
    ensures Layout(after, next) == LaidNext(Layout(layers, current), entry)
  {
    var gaps := [];
    var d := current;
    while d < entry.depth
      invariant current <= d <= entry.depth || (d == current && entry.depth < current)
      invariant gaps == Gaps(d - current)
    {
      gaps := gaps + [Gap];
      d := d + 1;
    }
    after := layers + gaps + [Layer(entry.depth, entry.range)];
    next := entry.depth + 1;
  }

  /** Laying out one more entry extends the layout by that entry. */
  lemma LaidSnoc(entries: seq<Entry>, e: Entry)
    ensures Laid(entries + [e]) == LaidNext(Laid(entries), e)
  {
    assert (entries + [e])[..|entries|] == entries;
  }

  /** The penalty of being caught in a layer. */
  function Penalty(layer: Layer): nat
  {
    layer.range * layer.depth
  }

  /** `traverse_delayed`'s severity after the first `n` layers: none while no scanner has
      caught the packet, otherwise the penalties of the layers that caught it added up; a
      layer of range one panics. */
  function SeverityUpTo(layers: seq<Layer>, delay: nat, n: nat): Result<Option<nat>>
    requires n <= |layers|
  {
    if n == 0 then Ok(None)
    else
      match SeverityUpTo(layers, delay, n - 1)
      case Err(e) => Err(e)
      case Ok(severity) =>
        match PosAt(layers[n - 1], n - 1 + delay)
        case Err(e) => Err(e)
        case Ok(pos) =>
          if pos == Some(0) then
            Ok(Some(match severity case None => Penalty(layers[n - 1]) case Some(sev) => sev + Penalty(layers[n - 1])))
          else Ok(severity)
  }

  /** The severity of crossing the whole firewall after waiting `delay` picoseconds. */
  function Severity(layers: seq<Layer>, delay: nat): Result<Option<nat>>
  {
    SeverityUpTo(layers, delay, |layers|)
  }

  /** The penalties of the first `n` layers that catch the packet, added up. */
  function CaughtPenalties(layers: seq<Layer>, delay: nat, n: nat): nat
    requires n <= |layers|
  {
    if n == 0 then 0
    else CaughtPenalties(layers, delay, n - 1) + if Caught(layers[n - 1], n - 1 + delay) then Penalty(layers[n - 1]) else 0
  }

  /** The severity fails exactly when a layer has range one; otherwise it is none exactly when
      no layer catches the packet, and else the penalties of the catching layers added up. A
      catch at depth zero still makes the severity `Some(0)`. */
  lemma {:induction false} SeverityMeaning(layers: seq<Layer>, delay: nat, n: nat)
    requires n <= |layers|
    ensures SeverityUpTo(layers, delay, n).Err? <==> exists i :: 0 <= i < n && layers[i].range == 1
    ensures SeverityUpTo(layers, delay, n).Ok? ==>
      (SeverityUpTo(layers, delay, n).value.None? <==> forall i :: 0 <= i < n ==> !Caught(layers[i], i + delay))
    ensures SeverityUpTo(layers, delay, n).Ok? && SeverityUpTo(layers, delay, n).value.Some? ==>
      SeverityUpTo(layers, delay, n).value.value == CaughtPenalties(layers, delay, n)
  {
    if n > 0 {
      var m := n - 1;
      SeverityMeaning(layers, delay, m);
      var before := SeverityUpTo(layers, delay, m);
      if before.Ok? && before.value.None? {
        assert CaughtPenalties(layers, delay, m) == 0 by {
          NoCatchNoPenalty(layers, delay, m);
        }
      }
      if exists i :: 0 <= i < n && layers[i].range == 1 {
        var i :| 0 <= i < n && layers[i].range == 1;
        assert before.Err? || i == m;
      }
      if SeverityUpTo(layers, delay, n).Ok? && SeverityUpTo(layers, delay, n).value.None? {
        forall i | 0 <= i < n
          ensures !Caught(layers[i], i + delay)
        {
          if i == m {
            assert PosAt(layers[m], m + delay) != Ok(Some(0));
          }
        }
      }
    }
  }

  /** Without a catch no penalty is added. */
  lemma {:induction false} NoCatchNoPenalty(layers: seq<Layer>, delay: nat, n: nat)
    requires n <= |layers| && forall i :: 0 <= i < n ==> !Caught(layers[i], i + delay)
    ensures CaughtPenalties(layers, delay, n) == 0
  {
    if n > 0 {
      NoCatchNoPenalty(layers, delay, n - 1);
    }
  }

  /** `Firewall::traverse_delayed`: walks the layers, adding the penalty of each layer whose
      scanner is at the top when the packet arrives. */
  method TraverseDelayed(firewall: Firewall, delay: nat) returns (severity: Result<Option<nat>>)
    ensures severity == Severity(firewall.layers, delay)
  {
    var layers := firewall.layers;
    var sev: Option<nat> := None;
    var i := 0;
    while i < |layers|
      invariant 0 <= i <= |layers|
      invariant SeverityUpTo(layers, delay, i) == Ok(sev)
    {
      var layer := layers[i];
      match PosAt(layer, i + delay) {
        case Err(e) =>
          SeverityFails(layers, delay, i, i + 1);
          return Err(e);
        case Ok(pos) =>
          if pos == Some(0) {
            var penalty := layer.range * layer.depth;
            sev := Some(match sev case None => penalty case Some(s) => s + penalty);
          }
      }
      i := i + 1;
    }
    return Ok(sev);
  }

  /** Once a layer fails, the whole traversal fails with its error. */
  lemma {:induction false} SeverityFails(layers: seq<Layer>, delay: nat, i: nat, next: nat)
    requires next == i + 1 && next <= |layers|
    requires SeverityUpTo(layers, delay, i).Ok? && PosAt(layers[i], i + delay).Err?
    ensures Severity(layers, delay) == Err(PosAt(layers[i], i + delay).msg)
  {
    SeverityFailsFrom(layers, delay, i, |layers|);
  }

  /** The failure of layer `i` carries through every later prefix. */
  lemma {:induction false} SeverityFailsFrom(layers: seq<Layer>, delay: nat, i: nat, n: nat)
    requires i < n <= |layers|
    requires SeverityUpTo(layers, delay, i).Ok? && PosAt(layers[i], i + delay).Err?
    ensures SeverityUpTo(layers, delay, n) == Err(PosAt(layers[i], i + delay).msg)
    decreases n
  {
    if n > i + 1 {
      SeverityFailsFrom(layers, delay, i, n - 1);
    }
  }

  /** `Firewall::traverse`: the crossing without delay. */
  method Traverse(firewall: Firewall) returns (severity: Result<Option<nat>>)
    ensures severity == Severity(firewall.layers, 0)
  {
    severity := TraverseDelayed(firewall, 0);
  }

  /** `find_safe_delay`: tries delays 0, 1, 2, ... and returns the first at which no scanner
      catches the packet. The search gives up after `fuel` delays. */
  method FindSafeDelay(firewall: Firewall, fuel: nat) returns (r: Result<Option<nat>>)
    ensures r.Ok? && r.value.Some? ==>
      r.value.value < fuel && Severity(firewall.layers, r.value.value) == Ok(None)
    ensures r.Ok? ==> forall d :: 0 <= d < fuel && (r.value.None? || d < r.value.value) ==>
      Severity(firewall.layers, d).Ok? && Severity(firewall.layers, d).value.Some?
    ensures r.Err? ==> exists d :: 0 <= d < fuel && Severity(firewall.layers, d).Err?
  {
    var d := 0;
    while d < fuel
      invariant 0 <= d <= fuel
      invariant forall e :: 0 <= e < d ==> Severity(firewall.layers, e).Ok? && Severity(firewall.layers, e).value.Some?
    {
      var severity := TraverseDelayed(firewall, d);
      match severity {
        case Err(e) => return Err(e);
        case Ok(None) => return Ok(Some(d));
        case Ok(Some(_)) =>
      }
      d := d + 1;
    }
    return Ok(None);
  }

  /** The example firewall `0: 3`, `1: 2`, `4: 4`, `6: 4`. */
  const SampleEntries: seq<Entry> := [Entry(0, 3), Entry(1, 2), Entry(4, 4), Entry(6, 4)]

  /** The example's entries are laid out as seven layers, with gaps at depths 2, 3 and 5
      (`test_firewall`). */
  lemma SampleLaid()
    ensures |Laid(SampleEntries).layers| == 7
    ensures Laid(SampleEntries).layers ==
      [Layer(0, 3), Layer(1, 2), Gap, Gap, Layer(4, 4), Gap, Layer(6, 4)]
  {
    var e := SampleEntries;
    assert e[..3] == [Entry(0, 3), Entry(1, 2), Entry(4, 4)];
    assert e[..3][..2] == [Entry(0, 3), Entry(1, 2)];
    assert e[..3][..2][..1] == [Entry(0, 3)];
    assert Laid(e[..3][..2][..1]).layers == [Layer(0, 3)];
    assert Laid(e[..3][..2]).layers == [Layer(0, 3), Layer(1, 2)];
    assert Laid(e[..3]).layers == [Layer(0, 3), Layer(1, 2), Gap, Gap, Layer(4, 4)];
  }

  /** The example's layers. */
  const SampleLayers: seq<Layer> := [Layer(0, 3), Layer(1, 2), Gap, Gap, Layer(4, 4), Gap, Layer(6, 4)]

  /** Crossing the example without delay is caught at depths 0 and 6, a severity of 24
      (`test_firewall`). */
  lemma SampleSeverity()
    ensures Severity(SampleLayers, 0) == Ok(Some(24))
  {
    var l := SampleLayers;
    assert SeverityUpTo(l, 0, 1) == Ok(Some(0));
    assert SeverityUpTo(l, 0, 2) == Ok(Some(0));
    assert SeverityUpTo(l, 0, 4) == Ok(Some(0));
    assert SeverityUpTo(l, 0, 5) == Ok(Some(0));
    assert SeverityUpTo(l, 0, 7) == Ok(Some(24));
  }

  /** Every delay below 10 gets the packet caught in the example, and a delay of 10 lets it
      through (`test_find_safe_delay`): so `find_safe_delay` answers 10. */
  lemma SampleSafeDelay()
    ensures Severity(SampleLayers, 10) == Ok(None)
    ensures forall d :: 0 <= d < 10 ==> Severity(SampleLayers, d).Ok? && Severity(SampleLayers, d).value.Some?
  {
    var l := SampleLayers;
    forall d | 0 <= d < 10
      ensures Severity(l, d).Ok? && Severity(l, d).value.Some?
    {
      SampleCaught(d);
    }
    SeverityMeaning(l, 10, 7);
    assert !Caught(l[0], 10) && !Caught(l[1], 11) && !Caught(l[4], 14) && !Caught(l[6], 16);
  }

  /** In the example some layer catches the packet at each delay below 10. */
  lemma SampleCaught(d: nat)
    requires d < 10
    ensures Severity(SampleLayers, d).Ok? && Severity(SampleLayers, d).value.Some?
  {
    var l := SampleLayers;
    SeverityMeaning(l, d, 7);
    assert forall i :: 0 <= i < 7 ==> l[i].range != 1;
    if d % 2 == 1 {
      assert Caught(l[1], 1 + d);
    } else if d % 4 == 0 {
      assert Caught(l[0], d);
    } else if d == 2 {
      assert Caught(l[4], 6);
    } else {
      assert Caught(l[6], 12);
    }
  }
}
