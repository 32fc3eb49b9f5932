/** The JOS kernel monitor's command line: runcmd splits a NUL-terminated
    buffer into whitespace-separated arguments in place and dispatches on the
    command table; showmappings checks its two addresses and reports one line
    per page of the range; monitor runs command lines until a command returns
    a negative value. */
module KernMonitor {
  import opened Common
  import opened Mmu
  import opened StringLib

  /** The size of runcmd's argv array; at most MAXARGS - 1 arguments fit. */
  const MAXARGS: nat := 16

  /** An argv slot: NULL, or a pointer to position i of the command buffer. */
  datatype CharPtr = Null | At(i: nat)

  // ---------------------------------------------------------------- arguments

  /** Position i of s begins an argument: it lies before the terminator, is not
      whitespace, and is the first position or follows whitespace. */
  predicate IsStart(s: seq<char>, i: nat)
    requires NUL in s
  {
    i < CStrLen(s) && !IsSpace(s[i]) && (i == 0 || IsSpace(s[i - 1]))
  }

  /** The positions below k where an argument begins, left to right. */
  function Starts(s: seq<char>, k: nat): seq<nat>
    requires NUL in s && k <= CStrLen(s)
  {
    if k == 0 then [] else Starts(s, k - 1) + (if IsStart(s, k - 1) then [k - 1] else [])
  }

  /** Where the arguments of the command line s begin. */
  function ArgStarts(s: seq<char>): seq<nat>
    requires NUL in s
  {
    Starts(s, CStrLen(s))
  }

  /** The starts below k are exactly the positions below k that begin an
      argument, in increasing order. */
  lemma {:induction false} StartsSpec(s: seq<char>, k: nat)
    requires NUL in s && k <= CStrLen(s)
    ensures forall j: nat :: j in Starts(s, k) <==> j < k && IsStart(s, j)
    ensures forall a, b :: 0 <= a < b < |Starts(s, k)| ==> Starts(s, k)[a] < Starts(s, k)[b]
    ensures forall a :: 0 <= a < |Starts(s, k)| ==> Starts(s, k)[a] < k
    decreases k
  {
    if k > 0 {
      StartsSpec(s, k - 1);
    }
  }

  /** Scanning further only appends starts. */
  lemma {:induction false} StartsPrefix(s: seq<char>, k: nat, m: nat)
    requires NUL in s && k <= m <= CStrLen(s)
    ensures Starts(s, k) <= Starts(s, m)
    decreases m
  {
    if k < m {
      StartsPrefix(s, k, m - 1);
    }
  }

  /** The maximal run of non-whitespace characters of s that starts at j. */
  function Word(s: seq<char>, j: nat): string
    requires NUL in s
    decreases CStrLen(s) - j
  {
    if j >= CStrLen(s) || IsSpace(s[j]) then [] else [s[j]] + Word(s, j + 1)
  }

  /** The arguments of the command line s, in order. */
  function Args(s: seq<char>): (args: seq<string>)
    requires NUL in s
    ensures |args| == |ArgStarts(s)|
  {
    var w := ArgStarts(s);
    seq(|w|, i requires 0 <= i < |w| => Word(s, w[i]))
  }

  /** s with every whitespace character before position p overwritten by NUL. */
  function Blanked(s: seq<char>, p: nat): (b: seq<char>)
    ensures |b| == |s|
  {
    seq(|s|, i requires 0 <= i < |s| => if i < p && IsSpace(s[i]) then NUL else s[i])
  }

  /** Once the whole line is blanked, the C string at any position up to the
      terminator is the run of non-whitespace characters there: argv[i] reads
      as the i-th argument. */
  lemma {:induction false} BlankedWord(s: seq<char>, j: nat)
    requires NUL in s && j <= CStrLen(s)
    ensures TerminatedAt(Blanked(s, CStrLen(s)), j)
    ensures CStrAt(Blanked(s, CStrLen(s)), j) == Word(s, j)
    decreases CStrLen(s) - j
  {
    var n := CStrLen(s);
    var b := Blanked(s, n);
    assert b[n] == NUL;
    if j < n && !IsSpace(s[j]) {
      BlankedWord(s, j + 1);
    }
  }

  /** The array buf holds s with the whitespace before p overwritten by NUL. */
  ghost predicate BlankedTo(buf: array<char>, s: seq<char>, p: nat)
    reads buf
  {
    buf.Length == |s| && forall i :: 0 <= i < |s| ==> buf[i] == if i < p && IsSpace(s[i]) then NUL else s[i]
  }

  /** The contents of such an array are Blanked(s, p). */
  lemma BlankedContents(buf: array<char>, s: seq<char>, p: nat)
    requires BlankedTo(buf, s, p)
    ensures buf[..] == Blanked(s, p)
  {
  }

  /** The gobble loop of runcmd: from p, overwrite whitespace with NUL up to
      the terminator or the next other character. */
  method SkipSpace(buf: array<char>, p: nat, ghost s: seq<char>) returns (q: nat)
    requires NUL in s && p <= CStrLen(s) && BlankedTo(buf, s, p)
    requires 0 < p < CStrLen(s) ==> IsSpace(s[p])
    modifies buf
    ensures p <= q <= CStrLen(s) && BlankedTo(buf, s, q)
    ensures Starts(s, q) == Starts(s, p)
    ensures buf[q] == NUL <==> q == CStrLen(s)
    ensures q < CStrLen(s) ==> IsStart(s, q) && Starts(s, q + 1) == Starts(s, q) + [q]
  {
    q := p;
    while buf[q] != NUL && IsSpace(buf[q])
      invariant p <= q <= CStrLen(s) && BlankedTo(buf, s, q)
      invariant Starts(s, q) == Starts(s, p)
      invariant p < q ==> IsSpace(s[q - 1])
      decreases CStrLen(s) - q
    {
      buf[q] := NUL;
      q := q + 1;
    }
  }

  /** The word scan of runcmd: from the start p of an argument, move to the
      terminator or the next whitespace character, recording that start. */
  method SkipWord(buf: array<char>, p: nat, ghost s: seq<char>) returns (q: nat)
    requires NUL in s && IsStart(s, p) && BlankedTo(buf, s, p)
    ensures p < q <= CStrLen(s) && Starts(s, q) == Starts(s, p) + [p]
    ensures q < CStrLen(s) ==> IsSpace(s[q])
    ensures forall i :: p <= i < q ==> !IsSpace(s[i])
  {
    assert forall i :: p <= i < |s| ==> buf[i] == s[i];
    q := p + 1;
    while buf[q] != NUL && !IsSpace(buf[q])
      invariant p < q <= CStrLen(s)
      invariant forall i :: p <= i < q ==> !IsSpace(s[i])
      invariant Starts(s, q) == Starts(s, p) + [p]
      decreases CStrLen(s) - q
    {
      assert !IsStart(s, q);
      q := q + 1;
    }
  }

  /** One argument of runcmd's loop: record its start p in argv[argc], scan
      past it and past the whitespace after it. */
  method TakeArg(buf: array<char>, argv: array<CharPtr>, argc: nat, p: nat, ghost s: seq<char>) returns (q: nat)
    requires NUL in s && argc < argv.Length && IsStart(s, p) && BlankedTo(buf, s, p)
    modifies buf, argv
    ensures argv[..] == old(argv[..])[argc := At(p)]
    ensures p < q <= CStrLen(s) && BlankedTo(buf, s, q) && Starts(s, q) == Starts(s, p) + [p]
    ensures buf[q] == NUL <==> q == CStrLen(s)
    ensures q < CStrLen(s) ==> IsStart(s, q) && Starts(s, q + 1) == Starts(s, q) + [q]
  {
    argv[argc] := At(p);
    q := SkipWord(buf, p, s);
    q := SkipSpace(buf, q, s);
  }

  /** Where the loop stops: at the terminator with every start found, or at a
      sixteenth start with fifteen found. */
  lemma ParseResult(s: seq<char>, p: nat, ws: seq<nat>, overflow: bool)
    requires NUL in s && p <= CStrLen(s) && ws == Starts(s, p) && |ws| < MAXARGS
    requires overflow <==> p != CStrLen(s)
    requires overflow ==> |ws| == MAXARGS - 1 && Starts(s, p + 1) == ws + [p]
    ensures var w := ArgStarts(s);
      && (overflow <==> MAXARGS <= |w|)
      && |ws| == (if overflow then MAXARGS - 1 else |w|)
      && ws <= w && (overflow ==> w[MAXARGS - 1] == p)
  {
    if overflow {
      StartsPrefix(s, p + 1, CStrLen(s));
    }
  }

  /** runcmd's parsing loop (monitor.c:149-167).  It overwrites the whitespace
      it skips with NUL and records in argv where each argument begins; at a
      sixteenth argument it gives up (overflow), the buffer blanked up to that
      argument. */
  method Parse(buf: array<char>) returns (argc: nat, argv: array<CharPtr>, overflow: bool)
    requires NUL in buf[..]
    modifies buf
    ensures fresh(argv) && argv.Length == MAXARGS
    ensures var s := old(buf[..]); var w := ArgStarts(s);
      && (overflow <==> MAXARGS <= |w|)
      && argc == (if overflow then MAXARGS - 1 else |w|)
      && (forall i :: 0 <= i < argc ==> argv[i] == At(w[i]))
      && (!overflow ==> argv[argc] == Null && buf[..] == Blanked(s, CStrLen(s)))
      && (overflow ==> buf[..] == Blanked(s, w[MAXARGS - 1]))
  {
    ghost var s := buf[..];
    ghost var n := CStrLen(s);
    argv := new CharPtr[MAXARGS];
    argc := 0;
    argv[0] := Null;
    ghost var av := argv[..];
    assert BlankedTo(buf, s, 0);
    ghost var ws: seq<nat> := [];
    var p := SkipSpace(buf, 0, s);
    // each round: p starts an argument that still fits
    while buf[p] != NUL && argc != MAXARGS - 1
      invariant p <= n && BlankedTo(buf, s, p)
      invariant ws == Starts(s, p) && argc == |ws| < MAXARGS
      invariant argv[..] == av && forall i :: 0 <= i < argc ==> av[i] == At(ws[i])
      invariant buf[p] == NUL <==> p == n
      invariant p < n ==> IsStart(s, p) && Starts(s, p + 1) == ws + [p]
      decreases n - p
    {
      av := av[argc := At(p)];
      ws := ws + [p];
      p := TakeArg(buf, argv, argc, p, s);
      argc := argc + 1;
    }
    overflow := buf[p] != NUL;  // "Too many arguments"
    if !overflow {
      argv[argc] := Null;
    }
    ParseResult(s, p, ws, overflow);
    BlankedContents(buf, s, p);
  }

  // ---------------------------------------------------------------- dispatch

  /** The command table, in order. */
  const Commands: seq<string> := ["help", "kerninfo", "backtrace", "showmappings"]

  /** The first entry at or after i of the command table named name. */
  function CommandFrom(name: string, i: nat): (r: Option<nat>)
    ensures r.Some? ==> i <= r.value < |Commands| && Commands[r.value] == name
    ensures r.Some? ==> forall j :: i <= j < r.value ==> Commands[j] != name
    ensures r.None? ==> forall j :: i <= j < |Commands| ==> Commands[j] != name
    decreases |Commands| - i
  {
    if i >= |Commands| then None
    else if Commands[i] == name then Some(i)
    else CommandFrom(name, i + 1)
  }

  /** The table's names are distinct, so each command is found by its own name. */
  lemma CommandNames()
    ensures |Commands| == 4
    ensures forall i :: 0 <= i < |Commands| ==> CommandFrom(Commands[i], 0) == Some(i)
  {
    assert CommandFrom(Commands[1], 0) == Some(1);
    assert CommandFrom(Commands[2], 0) == Some(2);
    assert CommandFrom(Commands[3], 0) == Some(3);
  }

  /** What the command at position i of the table returns on argv: help,
      kerninfo and backtrace only print and return 0. */
  function CommandResult(i: nat, args: seq<string>): (r: int)
    requires i < |Commands|
    ensures r == 0 || r == -1
    ensures Commands[i] != "showmappings" ==> r == 0
  {
    if Commands[i] == "showmappings" then ShowMappingsResult(args) else 0
  }

  /** What runcmd returns on the command line s: 0 for too many arguments, for
      no argument and for an unknown command; otherwise what the first table
      entry named by the first argument returns. */
  function RunResult(s: seq<char>): (r: int)
    requires NUL in s
    ensures r == 0 || r == -1
    ensures r != 0 ==> 0 < |Args(s)| < MAXARGS && Args(s)[0] == "showmappings"
  {
    var args := Args(s);
    if MAXARGS <= |args| || |args| == 0 then 0
    else match CommandFrom(args[0], 0)
      case None => 0
      case Some(i) => CommandResult(i, args)
  }

  /** runcmd returns: only showmappings can run forever. */
  predicate RunHalts(s: seq<char>)
    requires NUL in s
  {
    var args := Args(s);
    0 < |args| < MAXARGS && args[0] == "showmappings" ==> ShowMappingsHalts(args)
  }

  /** A negative result, which stops the monitor, comes from showmappings
      refusing its arguments and from nothing else. */
  lemma NegativeOnlyFromShowMappings(s: seq<char>)
    requires NUL in s
    ensures RunResult(s) < 0 <==>
      var args := Args(s);
      0 < |args| < MAXARGS && args[0] == "showmappings" && ParseRange(args).None?
  {
    var args := Args(s);
    if 0 < |args| < MAXARGS && args[0] == "showmappings" {
      assert CommandFrom(args[0], 0) == Some(3);
    }
  }

  /** The C strings that the pointers ptrs point at in b. */
  function CStrings(b: seq<char>, ptrs: seq<CharPtr>): (r: seq<string>)
    requires forall j :: 0 <= j < |ptrs| ==> ptrs[j].At? && TerminatedAt(b, ptrs[j].i)
    ensures |r| == |ptrs|
  {
    seq(|ptrs|, j requires 0 <= j < |ptrs| => CStrAt(b, ptrs[j].i))
  }

  /** Read through the pointers the parsing loop records, the blanked line
      gives back the arguments. */
  lemma ArgvStrings(s: seq<char>, ptrs: seq<CharPtr>)
    requires NUL in s && |ptrs| == |ArgStarts(s)|
    requires forall j :: 0 <= j < |ptrs| ==> ptrs[j] == At(ArgStarts(s)[j])
    ensures forall j :: 0 <= j < |ptrs| ==> ptrs[j].At? && TerminatedAt(Blanked(s, CStrLen(s)), ptrs[j].i)
    ensures CStrings(Blanked(s, CStrLen(s)), ptrs) == Args(s)
  {
    var w := ArgStarts(s);
    StartsSpec(s, CStrLen(s));
    forall j | 0 <= j < |ptrs|
      ensures TerminatedAt(Blanked(s, CStrLen(s)), w[j])
      ensures CStrAt(Blanked(s, CStrLen(s)), w[j]) == Word(s, w[j])
    {
      BlankedWord(s, w[j]);
    }
  }

  /** A line of whitespace only has no argument, and runcmd returns 0 on it. */
  lemma {:induction false} BlankLine(s: seq<char>, k: nat)
    requires NUL in s && k <= CStrLen(s) && forall i :: 0 <= i < CStrLen(s) ==> IsSpace(s[i])
    ensures Starts(s, k) == []
    ensures k == CStrLen(s) ==> Args(s) == [] && RunResult(s) == 0
    decreases k
  {
    if k > 0 {
      BlankLine(s, k - 1);
    }
  }

  /** runcmd (monitor.c:141-178): parse the buffer in place, then look the first
      argument up in the table and run that command on all of them. */
  method RunCmd(buf: array<char>, walk: uint32 -> Option<uint32>) returns (r: int)
    requires NUL in buf[..] && RunHalts(buf[..])
    modifies buf
    ensures r == RunResult(old(buf[..]))
    ensures var s := old(buf[..]); var w := ArgStarts(s);
      buf[..] == Blanked(s, if MAXARGS <= |w| then w[MAXARGS - 1] else CStrLen(s))
  {
    ghost var s := buf[..];
    ghost var w := ArgStarts(s);
    var argc, argv, overflow := Parse(buf);
    if overflow {
      return 0;
    }
    if argc == 0 {
      return 0;
    }
    var b := buf[..];
    var ptrs := argv[..argc];
    ArgvStrings(s, ptrs);
    var args := CStrings(b, ptrs);
    for i := 0 to |Commands|
      invariant forall j :: 0 <= j < i ==> Commands[j] != args[0]
    {
      if args[0] == Commands[i] {
        assert CommandFrom(args[0], 0) == Some(i);
        if Commands[i] == "showmappings" {
          var out;
          r, out := ShowMappings(args, walk);
        } else {
          r := 0;
        }
        return;
      }
    }
    assert CommandFrom(args[0], 0) == None;
    r := 0;  // "Unknown command"
  }

  // ---------------------------------------------------------------- showmappings

  /** Two page-aligned bounds, as showmappings reads them before rounding. */
  datatype Range = Range(lo: uint32, hi: uint32)

  /** The conversion of strtol's long to uintptr_t: modulo 2^32. */
  function Wrap32(v: int): (r: uint32)
    ensures 0 <= v < 0x1_0000_0000 ==> r == v
    ensures (v - r) % 0x1_0000_0000 == 0
  {
    v % 0x1_0000_0000
  }

  /** The range showmappings accepts: two arguments after the command name,
      each read by strtol in base 16 up to its end, the first not above the
      second. */
  function ParseRange(args: seq<string>): (r: Option<Range>)
    ensures r.Some? ==> r.value.lo <= r.value.hi
    ensures r.Some? <==>
      (|args| == 3 && Strtol16(args[1]).end == |args[1]| && Strtol16(args[2]).end == |args[2]|
       && Wrap32(Strtol16(args[1]).value) <= Wrap32(Strtol16(args[2]).value))
    ensures r.Some? ==> r.value == Range(Wrap32(Strtol16(args[1]).value), Wrap32(Strtol16(args[2]).value))
  {
    if |args| != 3 then None
    else
      var a := Strtol16(args[1]);
      if a.end < |args[1]| then None
      else
        var b := Strtol16(args[2]);
        if b.end < |args[2]| then None
        else if Wrap32(a.value) > Wrap32(b.value) then None
        else Some(Range(Wrap32(a.value), Wrap32(b.value)))
  }

  /** What showmappings returns: -1 when it refuses its arguments, else 0. */
  function ShowMappingsResult(args: seq<string>): int {
    if ParseRange(args).None? then -1 else 0
  }

  /** showmappings returns: the end of its range, rounded up, is not the last
      page, whose successor wraps to 0. */
  predicate ShowMappingsHalts(args: seq<string>) {
    ParseRange(args).Some? ==> RoundUp32(ParseRange(args).value.hi) != 0xFFFF_F000
  }

  /** Two arguments that strtol reads completely, in increasing order, are
      accepted as they are. */
  lemma ParseRangeOf(args: seq<string>, lo: uint32, hi: uint32)
    requires |args| == 3 && lo <= hi
    requires Strtol16(args[1]) == Parsed(lo, |args[1]|) && Strtol16(args[2]) == Parsed(hi, |args[2]|)
    ensures ParseRange(args) == Some(Range(lo, hi))
  {
    assert Wrap32(lo) == lo && Wrap32(hi) == hi;
  }

  /** Addresses written by "0x%x" are accepted as they are. */
  lemma ParseRangeOfHex(name: string, lo: uint32, hi: uint32)
    requires lo <= hi
    ensures ParseRange([name, "0x" + Hex(lo), "0x" + Hex(hi)]) == Some(Range(lo, hi))
  {
    StrtolOfHex(lo);
    StrtolOfHex(hi);
    ParseRangeOf([name, "0x" + Hex(lo), "0x" + Hex(hi)], lo, hi);
  }

  /** The addresses showmappings' loop visits from cur while cur <= end, one
      page apart; end lies below the last page, so cur + PGSIZE never wraps. */
  function Visits(cur: uint32, end: uint32): (v: seq<uint32>)
    requires end < 0xFFFF_F000
    ensures v == [] <==> cur > end
    ensures v != [] ==> v[0] == cur
    decreases end + 4096 - cur
  {
    if cur > end then [] else [cur] + Visits((cur + PGSIZE) % 0x1_0000_0000, end)
  }

  /** The loop visits cur, cur + PGSIZE, ... up to end, each address once and in
      increasing order, and, from an aligned cur, ends exactly at an aligned end. */
  lemma {:induction false} VisitsSpec(cur: uint32, end: uint32)
    requires end < 0xFFFF_F000
    ensures var v := Visits(cur, end);
      && (forall i :: 0 <= i < |v| ==> v[i] == cur + 4096 * i && v[i] <= end)
      && (forall a: int :: a in v <==> cur <= a <= end && (a - cur) % 4096 == 0)
      && (cur <= end ==> 0 < |v| && end < v[|v| - 1] + 4096)
      && (cur <= end && cur % 4096 == 0 && end % 4096 == 0 ==> v[|v| - 1] == end)
    decreases end + 4096 - cur
  {
    if cur <= end {
      var next := cur + 4096;
      assert (cur + PGSIZE) % 0x1_0000_0000 == next;
      VisitsSpec(next, end);
      var v := Visits(cur, end);
      assert v == [cur] + Visits(next, end);
      forall a: int | cur <= a <= end && (a - cur) % 4096 == 0 ensures a in v {
        if a != cur {
          assert next <= a && (a - next) % 4096 == 0;
        }
      }
    }
  }

  /** One line of showmappings' output. */
  datatype PageLine = NotMapped(va: uint32) | Mapping(va: uint32, pa: uint32, perm: string)

  /** "-%c----%c%cP" filled with the PTE_PS, PTE_U and PTE_W bits of an entry. */
  function PermString(w: uint32): (p: string)
    ensures |p| == 9 && p[0] == '-' && p[2..6] == "----" && p[8] == 'P'
    ensures (p[1] == 'S' <==> LargePage(w)) && (p[1] == 'S' || p[1] == '-')
    ensures (p[6] == 'U' <==> User(w)) && (p[6] == 'U' || p[6] == '-')
    ensures (p[7] == 'W' <==> Writable(w)) && (p[7] == 'W' || p[7] == '-')
  {
    ['-', if LargePage(w) then 'S' else '-', '-', '-', '-', '-',
     if User(w) then 'U' else '-', if Writable(w) then 'W' else '-', 'P']
  }

  /** The permission string shows exactly the three bits it is built from. */
  lemma PermStringBits(w1: uint32, w2: uint32)
    ensures PermString(w1) == PermString(w2) <==>
      LargePage(w1) == LargePage(w2) && User(w1) == User(w2) && Writable(w1) == Writable(w2)
  {
    if PermString(w1) == PermString(w2) {
      assert PermString(w1)[1] == PermString(w2)[1];
      assert PermString(w1)[6] == PermString(w2)[6];
      assert PermString(w1)[7] == PermString(w2)[7];
    }
  }

  /** The line showmappings prints for page va given what pgdir_walk finds.  As
      written, the test is inverted: an entry with PTE_P set reads "not
      mapped", and an entry without it is shown with its address and bits. */
  function Line(va: uint32, entry: Option<uint32>): (l: PageLine)
    ensures l.va == va
    ensures l.NotMapped? <==> entry.None? || Present(entry.value)
    ensures l.Mapping? ==> l.pa % PGSIZE == 0 && l.pa <= entry.value < l.pa + PGSIZE
    ensures l.Mapping? ==> l.perm == PermString(entry.value)
  {
    if entry.None? || Present(entry.value) then NotMapped(va)
    else Mapping(va, PteAddr(entry.value), PermString(entry.value))
  }

  /** The lines for the pages addrs, in order. */
  function Report(addrs: seq<uint32>, walk: uint32 -> Option<uint32>): (out: seq<PageLine>)
    ensures |out| == |addrs|
  {
    if addrs == [] then [] else [Line(addrs[0], walk(addrs[0]))] + Report(addrs[1..], walk)
  }

  /** Line i of the report is about page i: "not mapped" exactly when the walk
      finds no table or, as written, finds an entry with PTE_P set; otherwise
      the entry's physical address and its permission string. */
  lemma {:induction false} ReportAt(addrs: seq<uint32>, walk: uint32 -> Option<uint32>)
    ensures forall i :: 0 <= i < |addrs| ==>
      var l := Report(addrs, walk)[i];
      var e := walk(addrs[i]);
      && l.va == addrs[i]
      && (l.NotMapped? <==> e.None? || Present(e.value))
      && (l.Mapping? ==> l.pa == PteAddr(e.value) && l.perm == PermString(e.value))
  {
    if addrs != [] {
      ReportAt(addrs[1..], walk);
      forall i | 0 < i < |addrs| ensures Report(addrs, walk)[i] == Report(addrs[1..], walk)[i - 1] {
      }
    }
  }

  /** An aligned address other than the last page lies below it. */
  lemma BelowLastPage(a: uint32)
    requires a % 4096 == 0 && a != 0xFFFF_F000
    ensures a < 0xFFFF_F000
  {
  }

  /** The printing loop of mon_showmappings (monitor.c:117-131): one line for
      each page from cur up to end, cur advancing by PGSIZE in 32-bit
      arithmetic. */
  method PrintMappings(start: uint32, end: uint32, walk: uint32 -> Option<uint32>) returns (out: seq<PageLine>)
    requires end < 0xFFFF_F000
    ensures out == Report(Visits(start, end), walk)
  {
    out := [];
    var cur: uint32 := start;
    while cur <= end
      invariant out + Report(Visits(cur, end), walk) == Report(Visits(start, end), walk)
      decreases end + PGSIZE - cur
    {
      var next := (cur + PGSIZE) % 0x1_0000_0000;
      assert Visits(cur, end)[1..] == Visits(next, end);
      out := out + [Line(cur, walk(cur))];
      cur := next;
    }
  }

  /** mon_showmappings (monitor.c:88-133): check the arguments, round both
      bounds up to a page, and print one line per page from the first bound
      to the second.  pgdir_walk is the lookup walk: the entry word for an
      address, or None for a missing page table. */
  method ShowMappings(args: seq<string>, walk: uint32 -> Option<uint32>) returns (r: int, out: seq<PageLine>)
    requires ShowMappingsHalts(args)
    ensures r == ShowMappingsResult(args)
    ensures r == -1 ==> out == []
    ensures r == 0 ==>
      var range := ParseRange(args).value;
      RoundUp32(range.hi) < 0xFFFF_F000 &&
      out == Report(Visits(RoundUp32(range.lo), RoundUp32(range.hi)), walk)
  {
    out := [];
    if |args| != 3 {
      return -1, out;  // usage
    }
    var a := Strtol16(args[1]);
    if a.end < |args[1]| {
      return -1, out;  // *errchar != 0
    }
    var startAddr := Wrap32(a.value);
    var b := Strtol16(args[2]);
    if b.end < |args[2]| {
      return -1, out;
    }
    var endAddr := Wrap32(b.value);
    if startAddr > endAddr {
      return -1, out;
    }
    assert ParseRange(args) == Some(Range(startAddr, endAddr));
    startAddr := RoundUp32(startAddr);
    endAddr := RoundUp32(endAddr);
    BelowLastPage(endAddr);
    out := PrintMappings(startAddr, endAddr, walk);
    r := 0;
  }

  // ---------------------------------------------------------------- monitor

  /** Input line l makes runcmd return a negative value; a NULL from readline
      (None) runs nothing. */
  predicate Exits(l: Option<seq<char>>)
    requires l.Some? ==> NUL in l.value
  {
    l.Some? && RunResult(l.value) < 0
  }

  /** Every line readline returns is NUL-terminated. */
  predicate Lines(input: seq<Option<seq<char>>>) {
    forall j :: 0 <= j < |input| && input[j].Some? ==> NUL in input[j].value
  }

  /** The index of the first input line at or after from on which the monitor
      stops. */
  function FirstExit(input: seq<Option<seq<char>>>, from: nat): (r: Option<nat>)
    requires Lines(input)
    ensures r.Some? ==> from <= r.value < |input| && Exits(input[r.value])
    ensures r.Some? ==> forall j :: from <= j < r.value ==> !Exits(input[j])
    ensures r.None? ==> forall j :: from <= j < |input| ==> !Exits(input[j])
    decreases |input| - from
  {
    if from >= |input| then None
    else if Exits(input[from]) then Some(from)
    else FirstExit(input, from + 1)
  }

  /** monitor (monitor.c:180-197): run each line readline returns until runcmd
      returns a negative value.  The input is a finite sequence here; handled
      counts the lines read. */
  method Monitor(input: seq<Option<seq<char>>>, walk: uint32 -> Option<uint32>) returns (handled: nat, exited: bool)
    requires Lines(input)
    requires forall j :: 0 <= j < |input| && input[j].Some? ==> RunHalts(input[j].value)
    ensures exited <==> FirstExit(input, 0).Some?
    ensures exited ==> handled == FirstExit(input, 0).value + 1
    ensures !exited ==> handled == |input|
  {
    handled := 0;
    while handled < |input|
      invariant handled <= |input| && FirstExit(input, 0) == FirstExit(input, handled)
    {
      var line := input[handled];
      handled := handled + 1;
      if line.Some? {
        var text := line.value;
        var buf := new char[|text|](i requires 0 <= i < |text| => text[i]);
        assert buf[..] == text;
        var r := RunCmd(buf, walk);
        if r < 0 {
          return handled, true;
        }
      }
    }
    exited := false;
  }
}
