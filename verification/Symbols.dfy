/** internal/output/symbols.go: memory regions from /proc/PID/maps, and labels for
    addresses. */
module Symbols {
  import opened Bpf
  import opened Text

  datatype MemRegion = MemRegion(start: nat, end: nat, offset: nat, path: string)

  // ---- reading the maps ----

  /** One line of the file; None if the line is skipped as malformed. */
  function ParseLine(line: string): Option<MemRegion> {
    var fields := Fields(line);
    if |fields| < 5 then None else
    var dash := IndexOf(fields[0], '-');
    if dash == |fields[0]| then None else
    var start, end, offset := ParseHex(fields[0][..dash]), ParseHex(fields[0][dash + 1..]), ParseHex(fields[2]);
    if start.None? || end.None? || offset.None? then None
    else Some(MemRegion(start.value, end.value, offset.value, if |fields| >= 6 then fields[5] else ""))
  }

  function ParseAll(lines: seq<string>): seq<MemRegion> {
    if lines == [] then [] else
    var last := ParseLine(lines[|lines| - 1]);
    ParseAll(lines[..|lines| - 1]) + if last.Some? then [last.value] else []
  }

  /** What the operating system makes of the file: it cannot be opened, or its lines can
      be scanned, in the end with or without an error. */
  datatype MapsFile = Unopened | Opened(lines: seq<string>, failed: bool)

  /** ReadMaps; None is its error. */
  method ReadMaps(file: MapsFile) returns (r: Option<seq<MemRegion>>)
    ensures r == if file.Opened? && !file.failed then Some(ParseAll(file.lines)) else None
  {
    if file.Unopened? { return None; }
    var regions := ScanMaps(file.lines);
    if file.failed { return None; }
    r := Some(regions);
  }

  /** Its scanning loop. */
  method ScanMaps(lines: seq<string>) returns (regions: seq<MemRegion>)
    ensures regions == ParseAll(lines)
  {
    regions := [];
    for i := 0 to |lines|
      invariant regions == ParseAll(lines[..i])
    {
      assert lines[..i + 1][..i] == lines[..i];
      var fields := Fields(lines[i]);
      if |fields| < 5 { continue; }
      var dash := IndexOf(fields[0], '-');
      if dash == |fields[0]| { continue; }
      var start := ParseHex(fields[0][..dash]);
      if start.None? { continue; }
      var end := ParseHex(fields[0][dash + 1..]);
      if end.None? { continue; }
      var offset := ParseHex(fields[2]);
      if offset.None? { continue; }
      var path := "";
      if |fields| >= 6 { path := fields[5]; }
      regions := regions + [MemRegion(start.value, end.value, offset.value, path)];
    }
    assert lines[..|lines|] == lines;
  }

  /** Hexadecimal text of a 64-bit number, in either case. */
  predicate Hex64(s: string) {
    && s != "" && HexValue(s).Some? && HexValue(s).value < TWO64
  }

  /** f is l and r around its first dash. */
  ghost predicate Splits(f: string, l: string, r: string) {
    f == l + ['-'] + r && '-' !in l
  }

  lemma SplitAtFirst(f: string, l: string, r: string)
    requires Splits(f, l, r)
    ensures IndexOf(f, '-') == |l| < |f| && f[..|l|] == l && f[|l| + 1..] == r
  {
    IndexOfFirst(l, '-', r);
  }

  /** The line of region m: five fields or more, the first being two 64-bit numbers around
      its first dash, the third one such number, and the sixth, if any, the path. */
  ghost predicate IsLineOf(line: string, m: MemRegion, l: string, r: string) {
    && |Fields(line)| >= 5 && Splits(Fields(line)[0], l, r)
    && Hex64(l) && HexValue(l) == Some(m.start) && Hex64(r) && HexValue(r) == Some(m.end)
    && Hex64(Fields(line)[2]) && HexValue(Fields(line)[2]) == Some(m.offset)
    && m.path == if |Fields(line)| == 5 then "" else Fields(line)[5]
  }

  lemma CutAt(f: string, dash: nat)
    requires dash < |f| && f[dash] == '-' && '-' !in f[..dash]
    ensures Splits(f, f[..dash], f[dash + 1..])
  {
    assert f == f[..dash] + ['-'] + f[dash + 1..];
  }

  /** Exactly such a line yields that region; every other line is skipped. */
  lemma ParsesIff(line: string, m: MemRegion)
    ensures ParseLine(line) == Some(m) <==> exists l, r :: IsLineOf(line, m, l, r)
  {
    if ParseLine(line) == Some(m) {
      var f := Fields(line)[0];
      CutAt(f, IndexOf(f, '-'));
      assert IsLineOf(line, m, f[..IndexOf(f, '-')], f[IndexOf(f, '-') + 1..]);
    }
    forall l, r | IsLineOf(line, m, l, r) ensures ParseLine(line) == Some(m) {
      SplitAtFirst(Fields(line)[0], l, r);
    }
  }

  /** How proc_pid_maps(5) lays a line out around the region: leading zeros, the
      columns the parser ignores, and the space before and after the path. */
  datatype Layout = Layout(startZeros: nat, endZeros: nat, offsetZeros: nat,
                           perms: string, dev: string, inode: string, gap: string, trailing: string)

  predicate Laid(r: MemRegion, l: Layout) {
    && Word(l.perms) && Word(l.dev) && Word(l.inode) && Blank(l.gap) && Blank(l.trailing)
    && (r.path != "" ==> !IsSpace(r.path[0]) && l.gap != "")
  }

  /** A path up to its first white space. */
  function FirstWord(path: string): string {
    path[..WordEnd(path)]
  }

  function Range(r: MemRegion, l: Layout): string {
    (Zeros(l.startZeros) + ToHex(r.start)) + ['-'] + (Zeros(l.endZeros) + ToHex(r.end))
  }

  function Tail(r: MemRegion, l: Layout): string {
    if r.path == "" then l.gap + l.trailing else l.gap + (r.path + l.trailing)
  }

  function Render(r: MemRegion, l: Layout): string {
    Range(r, l) + (" " + (l.perms + (" " + ((Zeros(l.offsetZeros) + ToHex(r.offset))
      + (" " + (l.dev + (" " + (l.inode + Tail(r, l)))))))))
  }

  predicate Fits(r: MemRegion) { r.start < TWO64 && r.end < TWO64 && r.offset < TWO64 }

  lemma HexIsWord(s: string)
    requires HexText(s)
    ensures '-' !in s && '+' !in s && (s != "" ==> Word(s))
  {
  }

  /** A word, a space and the rest. */
  lemma FieldThen(word: string, rest: string)
    requires Word(word)
    ensures Fields(word + (" " + rest)) == [word] + Fields(rest)
  {
    FieldsWord(word, " " + rest);
    FieldsAfterBlank(" ", rest);
  }

  lemma FieldsOfTail(r: MemRegion, l: Layout)
    requires Laid(r, l)
    ensures var fs := Fields(l.inode + Tail(r, l));
      && fs != [] && fs[0] == l.inode
      && if r.path == "" then |fs| == 1 else |fs| >= 2 && fs[1] == FirstWord(r.path)
  {
    if r.path == "" {
      assert Fields("") == [];
      assert l.trailing + "" == l.trailing;
      FieldsAfterBlank(l.trailing, "");
      FieldsAfterBlank(l.gap, l.trailing);
    } else {
      FieldsAfterBlank(l.gap, r.path + l.trailing);
      FieldsOfPath(r.path, l.trailing);
    }
    FieldsWord(l.inode, Tail(r, l));
  }

  lemma FieldsOfPath(path: string, trailing: string)
    requires path != "" && !IsSpace(path[0]) && Blank(trailing)
    ensures Fields(path + trailing) != [] && Fields(path + trailing)[0] == FirstWord(path)
  {
    var s, n := path + trailing, WordEnd(path);
    assert s[0] == path[0] && forall i :: 0 <= i < n ==> s[i] == path[i];
    assert n < |s| ==> IsSpace(s[n]);
    assert WordEnd(s) == n;
    assert s[..n] == path[..n];
  }

  lemma FourFields(a: string, b: string, c: string, d: string, rest: string)
    requires Word(a) && Word(b) && Word(c) && Word(d)
    ensures Fields(a + (" " + (b + (" " + (c + (" " + (d + (" " + rest)))))))) == [a, b, c, d] + Fields(rest)
  {
    var r3 := d + (" " + rest);
    var r2 := c + (" " + r3);
    var r1 := b + (" " + r2);
    FieldThen(d, rest);
    FieldThen(c, r3);
    FieldThen(b, r2);
    FieldThen(a, r1);
    InARow(a, b, c, d, Fields(rest));
  }

  lemma InARow(a: string, b: string, c: string, d: string, rest: seq<string>)
    ensures [a] + ([b] + ([c] + ([d] + rest))) == [a, b, c, d] + rest
  {
  }

  lemma RangeIsWord(r: MemRegion, l: Layout)
    ensures Word(Range(r, l))
  {
    var left, right := Zeros(l.startZeros) + ToHex(r.start), Zeros(l.endZeros) + ToHex(r.end);
    HexOfPadded(l.startZeros, r.start);
    HexOfPadded(l.endZeros, r.end);
    HexIsWord(left);
    HexIsWord(right);
  }

  lemma FieldsOfRender(r: MemRegion, l: Layout)
    requires Laid(r, l)
    ensures var fs := Fields(Render(r, l));
      && |fs| >= 5 && fs[0] == Range(r, l) && fs[2] == Zeros(l.offsetZeros) + ToHex(r.offset)
      && if r.path == "" then |fs| == 5 else |fs| >= 6 && fs[5] == FirstWord(r.path)
  {
    var range, offset, rest := Range(r, l), Zeros(l.offsetZeros) + ToHex(r.offset), l.inode + Tail(r, l);
    RangeIsWord(r, l);
    HexOfPadded(l.offsetZeros, r.offset);
    HexIsWord(offset);
    FieldsOfTail(r, l);
    FourFields(range, l.perms, offset, l.dev, rest);
    assert Render(r, l) == range + (" " + (l.perms + (" " + (offset + (" " + (l.dev + (" " + rest)))))));
  }

  lemma SplitRange(r: MemRegion, l: Layout)
    ensures var range := Range(r, l); var dash := IndexOf(range, '-');
      && dash < |range|
      && range[..dash] == Zeros(l.startZeros) + ToHex(r.start)
      && range[dash + 1..] == Zeros(l.endZeros) + ToHex(r.end)
  {
    var left, right := Zeros(l.startZeros) + ToHex(r.start), Zeros(l.endZeros) + ToHex(r.end);
    HexOfPadded(l.startZeros, r.start);
    HexIsWord(left);
    IndexOfFirst(left, '-', right);
    assert Range(r, l)[..|left|] == left && Range(r, l)[|left| + 1..] == right;
  }

  /** Printing a region and parsing the line gives back the region with its path cut at
      the first white space, for every layout, unless one of its numbers needs more
      than 64 bits: then the line is skipped. */
  lemma PrintParse(r: MemRegion, l: Layout)
    requires Laid(r, l)
    ensures ParseLine(Render(r, l)) == if Fits(r) then Some(r.(path := FirstWord(r.path))) else None
  {
    FieldsOfRender(r, l);
    SplitRange(r, l);
    ParsePadded(l.startZeros, r.start);
    ParsePadded(l.endZeros, r.end);
    ParsePadded(l.offsetZeros, r.offset);
  }

  /** So a printed region survives exactly when its numbers fit and its path has no
      white space in it; the kernel's "/path (deleted)" loses its second word. */
  lemma SurvivesIff(r: MemRegion, l: Layout)
    requires Laid(r, l)
    ensures ParseLine(Render(r, l)) == Some(r) <==> Fits(r) && (r.path == "" || Word(r.path))
  {
    PrintParse(r, l);
    assert FirstWord(r.path) == r.path <==> WordEnd(r.path) == |r.path|;
  }

  /** A line of a maps file: a printed region, or text that is no region line. */
  datatype Item = Region(r: MemRegion, l: Layout) | Junk(line: string)

  predicate WellFormed(x: Item) {
    match x
    case Region(r, l) => Laid(r, l) && Fits(r) && (r.path == "" || Word(r.path))
    case Junk(line) => ParseLine(line).None?
  }

  function LineOf(x: Item): string {
    match x case Region(r, l) => Render(r, l) case Junk(line) => line
  }

  function Regions(items: seq<Item>): seq<MemRegion> {
    if items == [] then [] else
    Regions(items[..|items| - 1]) + (match items[|items| - 1] case Region(r, _) => [r] case Junk(_) => [])
  }

  function LinesOf(items: seq<Item>): seq<string> {
    seq(|items|, i requires 0 <= i < |items| => LineOf(items[i]))
  }

  /** Regions printed in order, with malformed lines anywhere between them, are read
      back exactly and in order. */
  lemma {:induction false} InterleavedJunk(items: seq<Item>)
    requires forall i :: 0 <= i < |items| ==> WellFormed(items[i])
    ensures ParseAll(LinesOf(items)) == Regions(items)
  {
    if items != [] {
      var n := |items| - 1;
      InterleavedJunk(items[..n]);
      assert LinesOf(items)[..n] == LinesOf(items[..n]);
      if items[n].Region? { SurvivesIff(items[n].r, items[n].l); }
    }
  }

  // ---- resolving addresses ----

  predicate Holds(r: MemRegion, addr: nat) { r.start <= addr < r.end }

  function FileOffset(r: MemRegion, addr: nat): nat
    requires Holds(r, addr)
  {
    (r.offset + (addr - r.start)) % TWO64
  }

  /** ResolveAddress: path and file offset from the first region that holds addr. */
  function ResolveAddress(addr: nat, regions: seq<MemRegion>): (string, nat) {
    if regions == [] then ("", 0)
    else if Holds(regions[0], addr) then (regions[0].path, FileOffset(regions[0], addr))
    else ResolveAddress(addr, regions[1..])
  }

  predicate Disjoint(regions: seq<MemRegion>) {
    forall i, j :: 0 <= i < j < |regions| ==> regions[i].end <= regions[j].start || regions[j].end <= regions[i].start
  }

  lemma {:induction false} ResolvesUnmapped(addr: nat, regions: seq<MemRegion>)
    requires forall i :: 0 <= i < |regions| ==> addr < regions[i].start || regions[i].end <= addr
    ensures ResolveAddress(addr, regions) == ("", 0)
  {
    if regions != [] { ResolvesUnmapped(addr, regions[1..]); }
  }

  lemma {:induction false} ResolvesToFirst(addr: nat, regions: seq<MemRegion>) returns (i: nat)
    requires exists k :: 0 <= k < |regions| && Holds(regions[k], addr)
    ensures i < |regions| && Holds(regions[i], addr)
    ensures ResolveAddress(addr, regions) == (regions[i].path, FileOffset(regions[i], addr))
  {
    if Holds(regions[0], addr) {
      i := 0;
    } else {
      var k :| 0 <= k < |regions| && Holds(regions[k], addr);
      assert Holds(regions[1..][k - 1], addr);
      var rest := ResolvesToFirst(addr, regions[1..]);
      i := rest + 1;
    }
  }

  lemma HolderIsFirst(addr: nat, regions: seq<MemRegion>, i: nat)
    requires Disjoint(regions) && i < |regions| && Holds(regions[i], addr)
    ensures ResolveAddress(addr, regions) == (regions[i].path, FileOffset(regions[i], addr))
  {
    var k := ResolvesToFirst(addr, regions);
  }

  /** Over disjoint regions the answer is that of the one region holding addr,
      wherever it stands in the list: its path, and the 64-bit number that is as far
      from the region's file offset as addr is from its start. */
  lemma ResolvesToHolder(addr: nat, regions: seq<MemRegion>, i: nat)
    requires Disjoint(regions) && i < |regions| && regions[i].start <= addr < regions[i].end
    ensures ResolveAddress(addr, regions) == (regions[i].path, FileOffset(regions[i], addr))
    ensures var (path, offset) := ResolveAddress(addr, regions);
      && path == regions[i].path && offset < TWO64
      && (offset + regions[i].start) % TWO64 == (regions[i].offset + addr) % TWO64
  {
    HolderIsFirst(addr, regions, i);
  }

  /** The order of disjoint regions does not matter. */
  lemma ResolveIgnoresOrder(addr: nat, regions: seq<MemRegion>, shuffled: seq<MemRegion>)
    requires Disjoint(regions) && multiset(regions) == multiset(shuffled)
    ensures ResolveAddress(addr, regions) == ResolveAddress(addr, shuffled)
  {
    if i :| 0 <= i < |regions| && Holds(regions[i], addr) {
      assert regions[i] in multiset(regions);
      assert regions[i] in shuffled;
      var j := ResolvesToFirst(addr, shuffled);
      assert shuffled[j] in multiset(shuffled);
      assert shuffled[j] in regions;
      var k :| 0 <= k < |regions| && regions[k] == shuffled[j];
      ResolvesToHolder(addr, regions, k);
    } else {
      forall j | 0 <= j < |shuffled| ensures !Holds(shuffled[j], addr) {
        assert shuffled[j] in multiset(shuffled);
        assert shuffled[j] in regions;
      }
      ResolvesUnmapped(addr, regions);
      ResolvesUnmapped(addr, shuffled);
    }
  }

  /** The file offset lies in the part of the file the region maps exactly when
      adding did not wrap past 2^64. */
  lemma OffsetInRegion(r: MemRegion, addr: nat)
    requires Holds(r, addr) && Fits(r)
    ensures r.offset <= FileOffset(r, addr) < r.offset + (r.end - r.start) <==> r.offset + (addr - r.start) < TWO64
  {
    var sum := r.offset + (addr - r.start);
    if sum < TWO64 {
      assert FileOffset(r, addr) == sum;
    } else {
      assert sum % TWO64 == sum - TWO64;
    }
  }

  // ---- labels ----

  /** What a label stands for. */
  datatype Meaning = Raw(addr: nat) | InFile(name: string, offset: nat)

  function MeaningOf(addr: nat, regions: seq<MemRegion>): Meaning {
    var (path, offset) := ResolveAddress(addr, regions);
    if path == "" || Base(path) == "" then Raw(addr) else InFile(Base(path), offset)
  }

  /** FormatAddress. */
  function FormatAddress(addr: nat, regions: seq<MemRegion>): string {
    var (path, offset) := ResolveAddress(addr, regions);
    if path == "" then "0x" + ToHex(addr) else
    var name := Base(path);
    if name == "" then "0x" + ToHex(addr) else name + ("+0x" + ToHex(offset))
  }

  function Label(m: Meaning): string {
    match m case Raw(addr) => "0x" + ToHex(addr) case InFile(name, offset) => name + ("+0x" + ToHex(offset))
  }

  lemma HexHasNoPlus(n: nat)
    ensures '+' !in ToHex(n)
  {
    HexOfPadded(0, n);
    assert Zeros(0) + ToHex(n) == ToHex(n);
    HexIsWord(ToHex(n));
  }

  /** What follows the last c decides where the text before it ends. */
  lemma LastSplits(a: string, b: string, x: string, y: string, c: char)
    requires a + ([c] + x) == b + ([c] + y) && c !in x && c !in y
    ensures a == b && x == y
  {
    var s, t := a + ([c] + x), b + ([c] + y);
    assert s[|a|] == c && t[|b|] == c;
    assert |a| == |b|;
    assert s[..|a|] == a && t[..|b|] == b;
    assert s[|a| + 1..] == x && t[|b| + 1..] == y;
  }

  /** The label printer is injective. */
  lemma LabelInjective(m: Meaning, n: Meaning)
    requires Label(m) == Label(n)
    ensures m == n
  {
    match (m, n)
    case (Raw(a), Raw(b)) =>
      assert Label(m)[2..] == ToHex(a) && Label(n)[2..] == ToHex(b);
      HexInjective(a, b);
    case (InFile(f, a), InFile(g, b)) =>
      var x, y := "0x" + ToHex(a), "0x" + ToHex(b);
      HexHasNoPlus(a);
      HexHasNoPlus(b);
      assert "+0x" + ToHex(a) == ['+'] + x && "+0x" + ToHex(b) == ['+'] + y;
      LastSplits(f, g, x, y, '+');
      assert x[2..] == ToHex(a) && y[2..] == ToHex(b);
      HexInjective(a, b);
    case (Raw(a), InFile(g, b)) => RawIsNoFile(a, g, b);
    case (InFile(f, a), Raw(b)) => RawIsNoFile(b, f, a);
  }

  lemma RawIsNoFile(a: nat, name: string, b: nat)
    ensures Label(Raw(a)) != Label(InFile(name, b))
  {
    HexHasNoPlus(a);
    assert Label(InFile(name, b))[|name|] == '+';
    assert '+' !in Label(Raw(a));
  }

  /** The label of an address that a named region holds: the base name and, in
      hexadecimal, where in the file the address is. */
  lemma LabelReads(addr: nat, regions: seq<MemRegion>, i: nat) returns (offset: nat)
    requires Disjoint(regions) && i < |regions| && regions[i].start <= addr < regions[i].end
    requires Base(regions[i].path) != ""
    ensures FormatAddress(addr, regions) == Base(regions[i].path) + "+0x" + ToHex(offset)
    ensures offset < TWO64 && (offset + regions[i].start) % TWO64 == (regions[i].offset + addr) % TWO64
  {
    ResolvesToHolder(addr, regions, i);
    offset := ResolveAddress(addr, regions).1;
    var name := Base(regions[i].path);
    assert name + ("+0x" + ToHex(offset)) == name + "+0x" + ToHex(offset);
  }

  /** And of any other address: the address itself. */
  lemma RawReads(addr: nat, regions: seq<MemRegion>)
    requires forall i :: 0 <= i < |regions| && regions[i].start <= addr < regions[i].end ==> Base(regions[i].path) == ""
    ensures FormatAddress(addr, regions) == "0x" + ToHex(addr)
  {
    if k :| 0 <= k < |regions| && Holds(regions[k], addr) {
      var i := ResolvesToFirst(addr, regions);
    } else {
      ResolvesUnmapped(addr, regions);
    }
  }

  /** Two addresses get the same label exactly when they resolve to the same base name
      and file offset, or are the same unresolved address. */
  lemma SameLabelIff(a: nat, b: nat, regions: seq<MemRegion>)
    ensures FormatAddress(a, regions) == FormatAddress(b, regions) <==> MeaningOf(a, regions) == MeaningOf(b, regions)
  {
    assert FormatAddress(a, regions) == Label(MeaningOf(a, regions));
    assert FormatAddress(b, regions) == Label(MeaningOf(b, regions));
    if FormatAddress(a, regions) == FormatAddress(b, regions) {
      LabelInjective(MeaningOf(a, regions), MeaningOf(b, regions));
    }
  }

  lemma SameRest(x: nat, y: nat, k: nat)
    ensures x % TWO64 == y % TWO64 <==> (x + k) % TWO64 == (y + k) % TWO64
  {
  }

  /** a is as far into the file r maps as b is into the one q maps, counted in 64 bits. */
  predicate EquallyFar(r: MemRegion, a: nat, q: MemRegion, b: nat) {
    (r.offset + a + q.start) % TWO64 == (q.offset + b + r.start) % TWO64
  }

  /** Two addresses held by named regions get the same label exactly when the regions map
      files of one base name and the addresses are equally far into them. */
  lemma SamePlaceIff(a: nat, i: nat, b: nat, j: nat, regions: seq<MemRegion>)
    requires Disjoint(regions) && i < |regions| && j < |regions|
    requires regions[i].start <= a < regions[i].end && regions[j].start <= b < regions[j].end
    requires Base(regions[i].path) != "" && Base(regions[j].path) != ""
    ensures FormatAddress(a, regions) == FormatAddress(b, regions) <==>
      Base(regions[i].path) == Base(regions[j].path) && EquallyFar(regions[i], a, regions[j], b)
  {
    MeaningAt(a, regions, i);
    MeaningAt(b, regions, j);
    SameLabelIff(a, b, regions);
    SameDistance(regions[i], a, regions[j], b);
  }

  lemma MeaningAt(addr: nat, regions: seq<MemRegion>, i: nat)
    requires Disjoint(regions) && i < |regions| && Holds(regions[i], addr) && Base(regions[i].path) != ""
    ensures MeaningOf(addr, regions) == InFile(Base(regions[i].path), FileOffset(regions[i], addr))
  {
    HolderIsFirst(addr, regions, i);
  }

  lemma SameDistance(r: MemRegion, a: nat, q: MemRegion, b: nat)
    requires Holds(r, a) && Holds(q, b)
    ensures FileOffset(r, a) == FileOffset(q, b) <==> EquallyFar(r, a, q, b)
  {
    SameRest(r.offset + (a - r.start), q.offset + (b - q.start), r.start + q.start);
    assert r.offset + (a - r.start) + (r.start + q.start) == r.offset + a + q.start;
    assert q.offset + (b - q.start) + (r.start + q.start) == q.offset + b + r.start;
  }

  /** Addresses in one region, named or not, never share a label. */
  lemma LabelTellsAddress(a: nat, b: nat, regions: seq<MemRegion>, i: nat)
    requires Disjoint(regions) && i < |regions| && regions[i].end - regions[i].start <= TWO64
    requires regions[i].start <= a < regions[i].end && regions[i].start <= b < regions[i].end
    ensures FormatAddress(a, regions) == FormatAddress(b, regions) <==> a == b
  {
    HolderIsFirst(a, regions, i);
    HolderIsFirst(b, regions, i);
    SameLabelIff(a, b, regions);
    OffsetTellsAddress(regions[i].offset, a, b, regions[i].start);
  }

  lemma OffsetTellsAddress(o: nat, a: nat, b: nat, s: nat)
    requires s <= a < s + TWO64 && s <= b < s + TWO64
    ensures (o + (a - s)) % TWO64 == (o + (b - s)) % TWO64 <==> a == b
  {
    SameRest(a - s, b - s, o);
  }

  /** ResolveStack: the labels of the addresses before the first zero, in order. */
  method ResolveStack(addrs: seq<nat>, regions: seq<MemRegion>) returns (frames: seq<string>)
    ensures |frames| <= |addrs| && (|frames| < |addrs| ==> addrs[|frames|] == 0)
    ensures forall i :: 0 <= i < |frames| ==> addrs[i] != 0 && frames[i] == FormatAddress(addrs[i], regions)
  {
    frames := [];
    for i := 0 to |addrs|
      invariant |frames| == i
      invariant forall k :: 0 <= k < i ==> addrs[k] != 0 && frames[k] == FormatAddress(addrs[k], regions)
    {
      if addrs[i] == 0 { break; }
      frames := frames + [FormatAddress(addrs[i], regions)];
    }
  }
}
