/**
 * The procfs helper: reading a process's command line, cgroup membership,
 * container ID and status record from the `/proc` pseudo-filesystem, and the
 * namespace-independent unique identifier derived from the status record.
 *
 * The file system is a snapshot of the readable files under the mount point,
 * and every point where the Go code would end the process (`glog.Fatalf`,
 * `panic`, an index out of range) is a `Failure` result.
 */
module Proc {
  import opened Wrappers
  import opened GoTypes
  import opened GoStrings
  import opened GoStrconv
  import opened Encoding

  /** Why the Go code would terminate the process instead of returning. */
  datatype Fatal =
    | IndexOutOfRange(index: nat, length: nat)  // a runtime panic on a slice index
    | BadCgroupLine(line: string)               // "Couldn't parse cgroup line"
    | BadPid(token: string)                     // "Couldn't parse PID"
    | BadPpid(token: string)                    // "Couldn't parse PPID"
    | BadStartTime(token: string)               // "Couldn't parse starttime"
    | BadStartStack(token: string)              // "Couldn't parse startstack"
    | BootIdUnreadable                          // the panic in BootID

  /** The relative path of a per-process file, as `fmt.Sprintf("%d/<name>", pid)` writes it. */
  function PidPath(pid: int32, name: string): string {
    FormatInt(pid as int) + "/" + name
  }

  /** The first `/`-piece of a per-process path is the PID in decimal, and it reads back as the PID. */
  lemma PidPathSplit(pid: int32, name: string)
    ensures Split(PidPath(pid, name), '/') == [FormatInt(pid as int)] + Split(name, '/')
    ensures Atoi(Split(PidPath(pid, name), '/')[0]) == Some(pid as int)
  {
    var digits := FormatInt(pid as int);
    FormatIntHasNoSlash(pid as int);
    SplitAppendFirst(digits, name, '/');
    assert PidPath(pid, name) == digits + ['/'] + name;
    ParseIntFormat(pid as int, 10, 64);
  }

  lemma FormatIntHasNoSlash(n: int)
    ensures '/' !in FormatInt(n)
  {
    if n < 0 {
      var digits := FormatUint(-n);
      assert FormatInt(n) == "-" + digits;
      assert forall i :: 1 <= i < |FormatInt(n)| ==> FormatInt(n)[i] == digits[i - 1];
    }
  }

  /** Distinct processes, or distinct file names, give distinct paths. */
  lemma PidPathInjective(pid: int32, name: string, pid': int32, name': string)
    ensures PidPath(pid, name) == PidPath(pid', name') <==> pid == pid' && name == name'
  {
    if PidPath(pid, name) == PidPath(pid', name') {
      PidPathSplit(pid, name);
      PidPathSplit(pid', name');
      var parts := Split(PidPath(pid, name), '/');
      assert parts[1..] == Split(name, '/') && parts[1..] == Split(name', '/');
      JoinSplit(name, '/');
      JoinSplit(name', '/');
    }
  }

  /** The path, relative to the default mount point, of the boot identifier. */
  const BootIdPath: string := "/sys/kernel/random/boot_id"

  // ---------------------------------------------------------------------------
  // Command lines
  // ---------------------------------------------------------------------------

  /**
   * The arguments held in NUL-delimited text: every NUL-terminated segment in
   * order, stopping at the first empty segment or at a tail with no NUL.
   */
  function NulArgs(data: string): seq<string>
    decreases |data|
  {
    match IndexOf(data, '\0')
    case None => []
    case Some(i) => if i == 0 then [] else [data[..i]] + NulArgs(data[i + 1..])
  }

  /** The arguments written back, each followed by a NUL. */
  function Terminated(args: seq<string>): string {
    if args == [] then "" else args[0] + ['\0'] + Terminated(args[1..])
  }

  /**
   * `args` is a reading of `data`: non-empty NUL-free arguments whose terminated
   * form starts `data`, after which comes an empty segment or an unterminated tail.
   */
  ghost predicate IsArgSplit(data: string, args: seq<string>) {
    && (forall i :: 0 <= i < |args| ==> args[i] != [] && '\0' !in args[i])
    && Terminated(args) <= data
    && var rest := data[|Terminated(args)|..]; '\0' !in rest || rest[0] == '\0'
  }

  /** A reading of the text after a first non-empty argument extends to a reading of the whole text. */
  lemma ArgSplitCons(a: string, tail: string, args: seq<string>)
    requires a != [] && '\0' !in a
    requires IsArgSplit(tail, args)
    ensures IsArgSplit(a + ['\0'] + tail, [a] + args)
  {
    var data := a + ['\0'] + tail;
    var all := [a] + args;
    assert all[1..] == args;
    var t := Terminated(args);
    assert Terminated(all) == a + ['\0'] + t;
    assert data[|a| + 1 + |t|..] == tail[|t|..];
  }

  lemma {:induction false} NulArgsIsArgSplit(data: string)
    ensures IsArgSplit(data, NulArgs(data))
    decreases |data|
  {
    match IndexOf(data, '\0')
    case None =>
    case Some(i) =>
      if i > 0 {
        var tail := data[i + 1..];
        NulArgsIsArgSplit(tail);
        assert data == data[..i] + ['\0'] + tail;
        ArgSplitCons(data[..i], tail, NulArgs(tail));
      }
  }

  lemma {:induction false} ArgSplitIsNulArgs(data: string, args: seq<string>)
    requires IsArgSplit(data, args)
    ensures args == NulArgs(data)
    decreases |args|
  {
    if args == [] {
      if '\0' in data {
        assert data[0] == '\0';
        assert IndexOf(data, '\0') == Some(0);
      }
    } else {
      var a := args[0];
      ArgSplitUncons(data, args);
      ArgSplitIsNulArgs(data[|a| + 1..], args[1..]);
      assert args == [a] + args[1..];
    }
  }

  /** A reading with a first argument `a` has its NUL right after `a`, and the rest reads the text after it. */
  lemma ArgSplitUncons(data: string, args: seq<string>)
    requires IsArgSplit(data, args) && args != []
    ensures var a := args[0];
      && |a| < |data| && IndexOf(data, '\0') == Some(|a|) && data[..|a|] == a
      && IsArgSplit(data[|a| + 1..], args[1..])
  {
    var a, more := args[0], Terminated(args[1..]);
    assert Terminated(args) == (a + ['\0']) + more;
    FirstArgAt(data, a, more);
    ArgSplitRest(data, args, |a| + 1);
  }

  /** After the first argument and its NUL, the remaining arguments read the remaining text. */
  lemma ArgSplitRest(data: string, args: seq<string>, n: nat)
    requires IsArgSplit(data, args) && args != []
    requires n == |args[0]| + 1 && n <= |data|
    requires Terminated(args[1..]) <= data[n..]
    ensures IsArgSplit(data[n..], args[1..])
  {
    var more := Terminated(args[1..]);
    assert |Terminated(args)| == n + |more|;
    assert data[|Terminated(args)|..] == data[n..][|more|..];
  }

  /** Text starting with `a`, a NUL and more has its first NUL right after `a`. */
  lemma FirstArgAt(data: string, a: string, more: string)
    requires (a + ['\0']) + more <= data && '\0' !in a
    ensures |a| < |data| && IndexOf(data, '\0') == Some(|a|) && data[..|a|] == a
    ensures more <= data[|a| + 1..]
  {
    PrefixOfConcat(a + ['\0'], more, data);
    assert data[..|a| + 1][..|a|] == data[..|a|];
    IndexOfAfter(data, '\0', |a|);
  }

  /** A prefix made of two parts starts with the first, and the second starts what follows. */
  lemma PrefixOfConcat(x: string, y: string, data: string)
    requires x + y <= data
    ensures data[..|x|] == x && y <= data[|x|..]
  {
    assert (x + y)[..|x|] == x;
    assert (x + y)[|x|..] == y;
  }

  /** `NulArgs` is the one reading of the NUL-delimited text. */
  lemma NulArgsCharacterized(data: string, args: seq<string>)
    ensures IsArgSplit(data, args) <==> args == NulArgs(data)
  {
    NulArgsIsArgSplit(data);
    if IsArgSplit(data, args) {
      ArgSplitIsNulArgs(data, args);
    }
  }

  /**
   * The reader loop of `CommandLine`: read up to and including the next NUL,
   * keep the text before it when it is not empty, and stop at an empty argument
   * or when no NUL is left.
   */
  method ReadArgs(data: string) returns (args: seq<string>)
    ensures args == NulArgs(data)
  {
    args := [];
    var unread := data;
    var done := false;
    while !done
      invariant args + NulArgs(unread) == NulArgs(data)
      invariant done ==> NulArgs(unread) == []
      decreases |unread|, !done
    {
      // reader.ReadString(0): the text up to and including the next NUL
      var next := IndexOf(unread, '\0');
      if next.Some? && next.value > 0 {
        var i := next.value;
        ghost var later := NulArgs(unread[i + 1..]);
        assert NulArgs(unread) == [unread[..i]] + later;
        assert (args + [unread[..i]]) + later == args + ([unread[..i]] + later);
        args := args + [unread[..i]];
        unread := unread[i + 1..];
      } else {
        done := true;
      }
    }
    assert args + [] == args;
  }

  /** Every NUL-terminated argument is read, in order, and nothing is read from empty text. */
  lemma NulArgsExamples()
    ensures NulArgs("ls\0-la\0") == ["ls", "-la"]
    ensures NulArgs("") == []
  {
    assert IsArgSplit("ls\0-la\0", ["ls", "-la"]) by {
      assert Terminated(["ls", "-la"]) == "ls\0-la\0" by {
        assert ["ls", "-la"][1..] == ["-la"];
      }
    }
    NulArgsCharacterized("ls\0-la\0", ["ls", "-la"]);
  }

  /** Reading stops at the first empty argument. */
  lemma NulArgsStopsAtEmpty()
    ensures NulArgs("ls\0\0-la\0") == ["ls"]
  {
    assert IsArgSplit("ls\0\0-la\0", ["ls"]) by {
      assert Terminated(["ls"]) == "ls\0";
      assert "ls\0\0-la\0"[3..] == "\0-la\0";
    }
    NulArgsCharacterized("ls\0\0-la\0", ["ls"]);
  }

  /** A last argument without its terminating NUL is not read. */
  lemma NulArgsDropsUnterminated()
    ensures NulArgs("ls\0-la") == ["ls"]
  {
    assert IsArgSplit("ls\0-la", ["ls"]) by {
      assert Terminated(["ls"]) == "ls\0";
      assert "ls\0-la"[3..] == "-la";
    }
    NulArgsCharacterized("ls\0-la", ["ls"]);
  }

  // ---------------------------------------------------------------------------
  // Cgroup membership
  // ---------------------------------------------------------------------------

  /** One line of `/proc/<pid>/cgroup`: hierarchy ID, its controllers, and the cgroup path. */
  datatype Cgroup = Cgroup(id: int, controllers: seq<string>, path: string)

  /** The lines a `bufio.Scanner` yields: the text split at newlines, without an empty last line. */
  function ScanLines(text: string): (lines: seq<string>)
    ensures forall i :: 0 <= i < |lines| ==> '\n' !in lines[i]
    ensures |lines| <= |Split(text, '\n')| && lines == Split(text, '\n')[..|lines|]
    ensures |lines| >= |Split(text, '\n')| - 1
    ensures forall i :: |lines| <= i < |Split(text, '\n')| ==> Split(text, '\n')[i] == ""
    ensures |lines| < |Split(text, '\n')| <==> Split(text, '\n')[|Split(text, '\n')| - 1] == ""
  {
    var parts := Split(text, '\n');
    if parts[|parts| - 1] == "" then parts[..|parts| - 1] else parts
  }

  /**
   * One cgroup line, read as the Go loop body reads it: ID from the first
   * `:`-piece, controllers from the second split at `,`, the path is the third.
   */
  function ParseCgroupLine(line: string): (r: Result<Cgroup, Fatal>)
    ensures var parts := Split(line, ':');
      && (Atoi(parts[0]).None? ==> r == Failure(BadCgroupLine(line)))
      && (Atoi(parts[0]).Some? && |parts| < 3 ==> r == Failure(IndexOutOfRange(|parts|, |parts|)))
      && (r.Success? ==>
            && Atoi(parts[0]) == Some(r.value.id)
            && |r.value.controllers| >= 1
            && Join(r.value.controllers, ',') == parts[1]
            && r.value.path == parts[2]
            && (forall i :: 0 <= i < |r.value.controllers| ==>
                  ',' !in r.value.controllers[i] && ':' !in r.value.controllers[i])
            && ':' !in r.value.path
            && parts[0] + [':'] + parts[1] + [':'] + r.value.path <= line)
  {
    var parts := Split(line, ':');
    match Atoi(parts[0])
    case None => Failure(BadCgroupLine(line))
    case Some(id) =>
      if |parts| < 3 then Failure(IndexOutOfRange(|parts|, |parts|))
      else
        var c := Cgroup(id, Split(parts[1], ','), parts[2]);
        SplitThreeLayout(line, ':');
        JoinSplit(parts[1], ',');
        forall i | 0 <= i < |c.controllers| ensures ':' !in c.controllers[i] {
          JoinHoldsPart(c.controllers, ',', i);
        }
        Success(c)
  }

  /** Every piece of a join appears in it, so a rune missing from the join is missing from every piece. */
  lemma {:induction false} JoinHoldsPart(parts: seq<string>, sep: char, i: nat)
    requires i < |parts|
    ensures forall c :: c in parts[i] ==> c in Join(parts, sep)
  {
    if |parts| > 1 {
      assert Join(parts, sep) == parts[0] + [sep] + Join(parts[1..], sep);
      if i > 0 {
        JoinHoldsPart(parts[1..], sep, i - 1);
      }
    }
  }

  /**
   * `f` applied to every element in order, or the failure of the first element
   * on which `f` fails: the shape of a loop that appends each parsed item and
   * stops the process at the first one that does not parse.
   */
  function MapResult<A, B, E>(xs: seq<A>, f: A -> Result<B, E>): Result<seq<B>, E> {
    if xs == [] then Success([])
    else
      match MapResult(xs[..|xs| - 1], f)
      case Failure(e) => Failure(e)
      case Success(ys) =>
        match f(xs[|xs| - 1])
        case Failure(e) => Failure(e)
        case Success(y) => Success(ys + [y])
  }

  /** Element `k` is the first of `xs` on which `f` fails. */
  ghost predicate FirstFailure<A, B, E>(xs: seq<A>, f: A -> Result<B, E>, k: int) {
    && 0 <= k < |xs|
    && f(xs[k]).Failure?
    && forall j :: 0 <= j < k ==> f(xs[j]).Success?
  }

  /** The whole sequence maps exactly when every element does. */
  lemma {:induction false} MapResultSucceeds<A, B, E>(xs: seq<A>, f: A -> Result<B, E>)
    ensures MapResult(xs, f).Success? <==> forall i :: 0 <= i < |xs| ==> f(xs[i]).Success?
  {
    if xs != [] {
      var n := |xs| - 1;
      var init := xs[..n];
      MapResultSucceeds(init, f);
      if MapResult(init, f).Failure? {
        var j :| 0 <= j < n && f(init[j]).Failure?;
        assert init[j] == xs[j];
      } else {
        assert forall i :: 0 <= i < n ==> init[i] == xs[i];
      }
    }
  }

  /** A sequence that maps gives one result per element, in order. */
  lemma {:induction false} MapResultValues<A, B, E>(xs: seq<A>, f: A -> Result<B, E>)
    requires MapResult(xs, f).Success?
    ensures |MapResult(xs, f).value| == |xs|
    ensures forall i :: 0 <= i < |xs| ==> f(xs[i]) == Success(MapResult(xs, f).value[i])
  {
    if xs != [] {
      var n := |xs| - 1;
      var init := xs[..n];
      MapResultValues(init, f);
      var all := MapResult(init, f).value + [f(xs[n]).value];
      assert MapResult(xs, f).value == all;
      forall i | 0 <= i < |xs| ensures f(xs[i]) == Success(all[i]) {
        if i < n {
          assert init[i] == xs[i];
        }
      }
    }
  }

  /** A sequence that does not map fails with the error of its first failing element. */
  lemma {:induction false} MapResultFirstFailure<A, B, E>(xs: seq<A>, f: A -> Result<B, E>)
    requires MapResult(xs, f).Failure?
    ensures exists k :: FirstFailure(xs, f, k) && f(xs[k]) == Failure(MapResult(xs, f).error)
  {
    var n := |xs| - 1;
    var init := xs[..n];
    if MapResult(init, f).Failure? {
      MapResultFirstFailure(init, f);
      var k :| FirstFailure(init, f, k) && f(init[k]) == Failure(MapResult(init, f).error);
      assert FirstFailure(xs, f, k);
    } else {
      MapResultSucceeds(init, f);
      assert forall j :: 0 <= j < n ==> init[j] == xs[j];
      assert FirstFailure(xs, f, n);
    }
  }

  /** When the elements before `i` map and element `i` fails, the whole fails with element `i`'s error. */
  lemma MapResultFailsAt<A, B, E>(xs: seq<A>, f: A -> Result<B, E>, i: nat)
    requires i < |xs|
    requires MapResult(xs[..i], f).Success?
    requires f(xs[i]).Failure?
    ensures MapResult(xs, f) == Failure(f(xs[i]).error)
  {
    MapResultSucceeds(xs[..i], f);
    MapResultSucceeds(xs, f);
    assert forall j :: 0 <= j < i ==> xs[..i][j] == xs[j];
    MapResultFirstFailure(xs, f);
    var k :| FirstFailure(xs, f, k) && f(xs[k]) == Failure(MapResult(xs, f).error);
    assert k == i;
  }

  /** One more element that maps extends the mapped prefix by its image. */
  lemma MapResultStep<A, B, E>(xs: seq<A>, f: A -> Result<B, E>, i: nat, ys: seq<B>, y: B)
    requires i < |xs|
    requires MapResult(xs[..i], f) == Success(ys)
    requires f(xs[i]) == Success(y)
    ensures MapResult(xs[..i + 1], f) == Success(ys + [y])
  {
    assert xs[..i + 1][..i] == xs[..i];
  }

  /** The records of the lines, one per line and in order, or the failure of the first bad line. */
  function ParseCgroupLines(lines: seq<string>): Result<seq<Cgroup>, Fatal> {
    MapResult(lines, ParseCgroupLine)
  }

  /**
   * The cgroup file parses when every line does, to one record per line in
   * order; otherwise it fails with the error of the first line that does not.
   */
  lemma ParseCgroupLinesSpec(lines: seq<string>)
    ensures var r := ParseCgroupLines(lines);
      && (r.Success? <==> forall i :: 0 <= i < |lines| ==> ParseCgroupLine(lines[i]).Success?)
      && (r.Success? ==> |r.value| == |lines|)
      && (r.Success? ==> forall i :: 0 <= i < |lines| ==> ParseCgroupLine(lines[i]) == Success(r.value[i]))
      && (r.Failure? ==> exists k :: FirstFailure(lines, ParseCgroupLine, k)
                                     && ParseCgroupLine(lines[k]) == Failure(r.error))
  {
    MapResultSucceeds(lines, ParseCgroupLine);
    if ParseCgroupLines(lines).Success? {
      MapResultValues(lines, ParseCgroupLine);
    } else {
      MapResultFirstFailure(lines, ParseCgroupLine);
    }
  }

  /** The cgroup membership a snapshot gives: no records when the file cannot be read. */
  function CgroupsOf(fs: FileSystem, pid: int32): Result<seq<Cgroup>, Fatal> {
    match fs.ReadFile(PidPath(pid, "cgroup"))
    case None => Success([])
    case Some(text) => ParseCgroupLines(ScanLines(text))
  }
  /**
   * The loop over the lines of `cgroup`: each line is parsed and appended;
   * the first line that does not parse ends the process with its error.
   */
  method ReadCgroupLines(lines: seq<string>) returns (r: Result<seq<Cgroup>, Fatal>)
    ensures r == ParseCgroupLines(lines)
  {
    var cgroups: seq<Cgroup> := [];
    for i := 0 to |lines|
      invariant ParseCgroupLines(lines[..i]) == Success(cgroups)
    {
      var t := lines[i];
      var parts := Split(t, ':');
      var id := Atoi(parts[0]);
      if id.None? {
        MapResultFailsAt(lines, ParseCgroupLine, i);
        return Failure(BadCgroupLine(t));
      }
      if |parts| < 3 {
        MapResultFailsAt(lines, ParseCgroupLine, i);
        return Failure(IndexOutOfRange(|parts|, |parts|));
      }
      var c := Cgroup(id.value, Split(parts[1], ','), parts[2]);
      CgroupLineOf(t, parts, id.value);
      MapResultStep(lines, ParseCgroupLine, i, cgroups, c);
      cgroups := cgroups + [c];
    }
    assert lines[..|lines|] == lines;
    return Success(cgroups);
  }


  /** A record the kernel could have written: a 64-bit ID, controllers and path free of separators. */
  predicate WellFormedCgroup(c: Cgroup) {
    && -0x8000_0000_0000_0000 <= c.id < 0x8000_0000_0000_0000
    && |c.controllers| >= 1
    && (forall i :: 0 <= i < |c.controllers| ==> ',' !in c.controllers[i] && ':' !in c.controllers[i])
    && ':' !in c.path
  }

  /** The line the kernel writes for a record: `<id>:<controllers joined by ,>:<path>`. */
  function CgroupLine(c: Cgroup): string {
    FormatInt(c.id) + [':'] + Join(c.controllers, ',') + [':'] + c.path
  }

  /** The pieces of a well-formed record's line are its three parts, and each reads back. */
  lemma CgroupLinePieces(c: Cgroup)
    requires WellFormedCgroup(c)
    ensures Split(CgroupLine(c), ':') == [FormatInt(c.id), Join(c.controllers, ','), c.path]
    ensures Atoi(FormatInt(c.id)) == Some(c.id)
    ensures Split(Join(c.controllers, ','), ',') == c.controllers
  {
    var idText := FormatInt(c.id);
    var ctl := Join(c.controllers, ',');
    assert ':' !in idText by {
      if c.id < 0 {
        assert idText[1..] == FormatUint(-c.id);
      }
    }
    assert ':' !in ctl by {
      if ':' in ctl {
        JoinMissing(c.controllers, ',', ':');
      }
    }
    var parts := [idText, ctl, c.path];
    Join3(idText, ctl, c.path, ':');
    SplitJoin(parts, ':');
    SplitJoin(c.controllers, ',');
    ParseIntFormat(c.id, 10, 64);
  }

  /** A well-formed cgroup line is read back as the record it was written from. */
  lemma CgroupLineRoundTrip(c: Cgroup)
    requires WellFormedCgroup(c)
    ensures ParseCgroupLine(CgroupLine(c)) == Success(c)
  {
    CgroupLinePieces(c);
    CgroupLineOf(CgroupLine(c), Split(CgroupLine(c), ':'), c.id);
  }

  /** A path with more `:` than the format has keeps only the text up to the next `:`. */
  lemma CgroupPathStopsAtColon(c: Cgroup, rest: string)
    requires WellFormedCgroup(c)
    ensures ParseCgroupLine(CgroupLine(c) + [':'] + rest) == Success(c)
  {
    var line := CgroupLine(c) + [':'] + rest;
    CgroupLinePieces(c);
    SplitAppend(CgroupLine(c), rest, ':');
    var parts := Split(line, ':');
    assert parts[..3] == Split(CgroupLine(c), ':');
    CgroupLineOf(line, parts, c.id);
  }

  /** A line whose first piece is a number parses to that number and the next two pieces. */
  lemma CgroupLineOf(line: string, parts: seq<string>, id: int)
    requires Split(line, ':') == parts && |parts| >= 3
    requires Atoi(parts[0]) == Some(id)
    ensures ParseCgroupLine(line) == Success(Cgroup(id, Split(parts[1], ','), parts[2]))
  {
  }

  lemma Join3(a: string, b: string, c: string, sep: char)
    ensures Join([a, b, c], sep) == a + [sep] + b + [sep] + c
  {
    assert [a, b, c][1..] == [b, c];
    assert [b, c][1..] == [c];
    assert Join([c], sep) == c;
    assert Join([b, c], sep) == b + [sep] + c;
  }

  /** A rune that no piece holds, other than the separator, is not in the join. */
  lemma {:induction false} JoinMissing(parts: seq<string>, sep: char, c: char)
    requires c != sep
    requires forall i :: 0 <= i < |parts| ==> c !in parts[i]
    ensures c !in Join(parts, sep)
  {
    if |parts| > 1 {
      JoinMissing(parts[1..], sep, c);
    }
  }

  // ---------------------------------------------------------------------------
  // Container IDs
  // ---------------------------------------------------------------------------

  /** The legacy Docker cgroup convention: the path starts with `/docker`. */
  predicate IsDockerPath(path: string) {
    "/docker" <= path
  }

  /** Element 2 of the path split at `/`, the token after `/docker/`; short paths panic. */
  function DockerToken(path: string): (r: Result<string, Fatal>)
    ensures |Split(path, '/')| < 3 <==> r == Failure(IndexOutOfRange(2, |Split(path, '/')|))
    ensures r.Success? <==> |Split(path, '/')| >= 3
    ensures r.Success? ==> '/' !in r.value
    ensures r.Success? ==> var p := Split(path, '/'); var pre := p[0] + ['/'] + p[1] + ['/'];
      pre + r.value == path || pre + r.value + ['/'] <= path
  {
    var parts := Split(path, '/');
    if |parts| < 3 then Failure(IndexOutOfRange(2, |parts|))
    else
      SplitThirdPiece(path, '/');
      Success(parts[2])
  }

  /** The position of the first record with a Docker path. */
  function FirstDocker(cgroups: seq<Cgroup>): (r: Option<nat>)
    ensures r.None? <==> forall i :: 0 <= i < |cgroups| ==> !IsDockerPath(cgroups[i].path)
    ensures r.Some? ==> r.value < |cgroups| && IsDockerPath(cgroups[r.value].path)
    ensures r.Some? ==> forall j :: 0 <= j < r.value ==> !IsDockerPath(cgroups[j].path)
  {
    if cgroups == [] then None
    else if IsDockerPath(cgroups[0].path) then Some(0)
    else match FirstDocker(cgroups[1..])
      case None => None
      case Some(k) => Some(k + 1)
  }

  /**
   * The loop of `ContainerID` over the cgroup records: the token of the first
   * record whose path starts with `/docker`, or empty when the scan finds none.
   */
  method ScanForContainerID(cgroups: seq<Cgroup>) returns (r: Result<string, Fatal>)
    ensures r == ContainerIDOf(cgroups)
  {
    for i := 0 to |cgroups|
      invariant forall j :: 0 <= j < i ==> !IsDockerPath(cgroups[j].path)
    {
      if "/docker" <= cgroups[i].path {
        // strings.Split(pci.Path, "/")[2], which panics on a short path
        var pathParts := Split(cgroups[i].path, '/');
        if |pathParts| < 3 {
          return Failure(IndexOutOfRange(2, |pathParts|));
        }
        return Success(pathParts[2]);
      }
    }
    return Success("");
  }

  /** Records after the first Docker one do not change which record is found. */
  lemma FirstDockerIgnoresLater(cgroups: seq<Cgroup>, later: seq<Cgroup>)
    requires FirstDocker(cgroups).Some?
    ensures FirstDocker(cgroups + later) == FirstDocker(cgroups)
  {
    var k := FirstDocker(cgroups).value;
    var all := cgroups + later;
    assert all[k] == cgroups[k];
    assert forall j :: 0 <= j < k ==> all[j] == cgroups[j];
  }

  /**
   * The container ID found in cgroup records: empty when no path starts with
   * `/docker`, otherwise the token of the first such path.
   */
  function ContainerIDOf(cgroups: seq<Cgroup>): (r: Result<string, Fatal>)
    ensures (forall i :: 0 <= i < |cgroups| ==> !IsDockerPath(cgroups[i].path)) <==> r == Success("") && FirstDocker(cgroups).None?
    ensures forall k :: 0 <= k < |cgroups| && IsDockerPath(cgroups[k].path)
                        && (forall j :: 0 <= j < k ==> !IsDockerPath(cgroups[j].path))
                   ==> r == DockerToken(cgroups[k].path)
  {
    match FirstDocker(cgroups)
    case None => Success("")
    case Some(k) => DockerToken(cgroups[k].path)
  }

  /** Records after the first one with a Docker path do not affect the container ID. */
  lemma ContainerIDIgnoresLater(cgroups: seq<Cgroup>, later: seq<Cgroup>)
    requires exists k :: 0 <= k < |cgroups| && IsDockerPath(cgroups[k].path)
    ensures ContainerIDOf(cgroups + later) == ContainerIDOf(cgroups)
  {
    FirstDockerIgnoresLater(cgroups, later);
  }

  /**
   * In the legacy Docker layout, `/docker/<token>` or `/docker/<token>/...`,
   * the token is the container ID.
   */
  lemma DockerTokenOf(token: string, rest: string)
    requires '/' !in token
    ensures DockerToken("/docker/" + token) == Success(token)
    ensures DockerToken("/docker/" + token + "/" + rest) == Success(token)
  {
    DockerPathPieces(token, rest);
    DockerPathEnd(token);
  }

  lemma DockerPathEnd(token: string)
    requires '/' !in token
    ensures Split("/docker/" + token, '/') == ["", "docker", token]
  {
    Join3("", "docker", token, '/');
    SplitJoin(["", "docker", token], '/');
    assert "/docker/" + token == "" + ['/'] + "docker" + ['/'] + token;
  }

  lemma DockerPathPieces(token: string, rest: string)
    requires '/' !in token
    ensures Split("/docker/" + token + "/" + rest, '/') == ["", "docker", token] + Split(rest, '/')
  {
    var tail := token + ['/'] + rest;
    assert "/docker/" + token + "/" + rest == "" + ['/'] + ("docker" + ['/'] + tail);
    SplitAppendFirst("", "docker" + ['/'] + tail, '/');
    SplitAppendFirst("docker", tail, '/');
    SplitAppendFirst(token, rest, '/');
    Prepend3("", "docker", token, Split(rest, '/'));
  }

  lemma Prepend3<T>(a: T, b: T, c: T, r: seq<T>)
    ensures [a] + ([b] + ([c] + r)) == [a, b, c] + r
  {
  }

  /** A path that is `/docker` alone has no token: indexing it panics. */
  lemma DockerTokenShortPath()
    ensures DockerToken("/docker") == Failure(IndexOutOfRange(2, 2))
  {
    assert Join(["", "docker"], '/') == "/docker" by {
      assert ["", "docker"][1..] == ["docker"];
    }
    SplitJoin(["", "docker"], '/');
  }

  // ---------------------------------------------------------------------------
  // The status record and its fields
  // ---------------------------------------------------------------------------

  /** The runes `ParseCommand` strips from both ends of the command field. */
  const Parens: set<char> := {'(', ')'}

  /** Field `k` of the status record; Go panics on an index past the end. */
  function StatField(fields: seq<string>, k: nat): Result<string, Fatal> {
    if k < |fields| then Success(fields[k]) else Failure(IndexOutOfRange(k, |fields|))
  }

  /** Field 1 (token 0): the PID, a signed 32-bit number in any base Go accepts. */
  function ParsePid(fields: seq<string>): Result<int32, Fatal> {
    match StatField(fields, 0)
    case Failure(e) => Failure(e)
    case Success(t) =>
      match ParseInt(t, 0, 32)
      case None => Failure(BadPid(t))
      case Some(i) => Success(i as int32)
  }

  /** Field 2 (token 1): the command name with every leading and trailing parenthesis removed. */
  function ParseCommand(fields: seq<string>): Result<string, Fatal> {
    match StatField(fields, 1)
    case Failure(e) => Failure(e)
    case Success(t) => Success(Trim(t, Parens))
  }

  /** Field 4 (token 3): the parent PID, a signed 32-bit number. */
  function ParsePpid(fields: seq<string>): Result<int32, Fatal> {
    match StatField(fields, 3)
    case Failure(e) => Failure(e)
    case Success(t) =>
      match ParseInt(t, 0, 32)
      case None => Failure(BadPpid(t))
      case Some(i) => Success(i as int32)
  }

  /** Field 22 (token 21): the start time in clock ticks, an unsigned 64-bit number. */
  function ParseStartTime(fields: seq<string>): Result<uint64, Fatal> {
    match StatField(fields, 21)
    case Failure(e) => Failure(e)
    case Success(t) =>
      match ParseUint(t, 0, 64)
      case None => Failure(BadStartTime(t))
      case Some(i) => Success(i as uint64)
  }

  /** Field 28 (token 27): the start-of-stack address, an unsigned 64-bit number. */
  function ParseStartStack(fields: seq<string>): Result<uint64, Fatal> {
    match StatField(fields, 27)
    case Failure(e) => Failure(e)
    case Success(t) =>
      match ParseUint(t, 0, 64)
      case None => Failure(BadStartStack(t))
      case Some(i) => Success(i as uint64)
  }

  /**
   * The command name is the field without its parentheses, however many layers
   * of them there are, provided the name itself does not start or end with one.
   */
  lemma CommandUnwrapped(prefix: string, comm: string, suffix: string)
    requires forall i :: 0 <= i < |prefix| ==> prefix[i] in Parens
    requires forall i :: 0 <= i < |suffix| ==> suffix[i] in Parens
    requires comm != [] && comm[0] !in Parens && comm[|comm| - 1] !in Parens
    ensures Trim(prefix + comm + suffix, Parens) == comm
  {
    TrimWrapped(prefix, comm, suffix, Parens);
  }

  /** A command name that itself ends in a parenthesis loses it: `(x))` is read as `x`. */
  lemma CommandLosesOwnParen()
    ensures ParseCommand(["1", "(x))"]) == Success("x")
  {
    var field := "(x))";
    assert field == "(" + "x" + "))";
    CommandUnwrapped("(", "x", "))");
    assert ["1", field][1] == field;
  }

  /**
   * A status line that the kernel writes, fields separated by single blanks
   * and closed by a newline, with the PID, parent PID, start time and start
   * stack in decimal and the command name in parentheses, is read back field
   * for field.
   */
  lemma StatLineRoundTrip(fields: seq<string>, pid: int32, comm: string, ppid: int32,
                          startTime: uint64, startStack: uint64)
    requires |fields| >= 28
    requires forall i :: 0 <= i < |fields| ==> fields[i] != [] && NoSpace(fields[i])
    requires fields[0] == FormatInt(pid as int)
    requires fields[1] == "(" + comm + ")"
    requires comm != [] && comm[0] !in Parens && comm[|comm| - 1] !in Parens
    requires fields[3] == FormatInt(ppid as int)
    requires fields[21] == FormatUint(startTime as nat)
    requires fields[27] == FormatUint(startStack as nat)
    ensures var parsed := Fields(Join(fields, ' ') + "\n");
      && ParsePid(parsed) == Success(pid)
      && ParseCommand(parsed) == Success(comm)
      && ParsePpid(parsed) == Success(ppid)
      && ParseStartTime(parsed) == Success(startTime)
      && ParseStartStack(parsed) == Success(startStack)
  {
    FieldsOfJoin(fields, "\n");
    PidRoundTrip(fields, pid);
    CommandRoundTrip(fields, comm);
    PpidRoundTrip(fields, ppid);
    StartTimeRoundTrip(fields, startTime);
    StartStackRoundTrip(fields, startStack);
  }

  /**
   * A command name with a blank in it, which the kernel writes as it is, is
   * cut in two by `Fields`: the command reads as its first word, and every
   * later field moves up by one, so the parent PID is read from the state
   * field, the start time from field 21 and the start stack from field 27.
   */
  lemma CommandWithBlankShifts(fields: seq<string>, a: string, b: string)
    requires |fields| >= 28
    requires forall i :: 0 <= i < |fields| && i != 1 ==> fields[i] != [] && NoSpace(fields[i])
    requires fields[1] == "(" + a + " " + b + ")"
    requires a != [] && NoSpace(a) && a[0] !in Parens && a[|a| - 1] !in Parens
    requires NoSpace(b)
    ensures var parsed := Fields(Join(fields, ' ') + "\n");
      && parsed == [fields[0], "(" + a, b + ")"] + fields[2..]
      && ParseCommand(parsed) == Success(a)
      && parsed[3..] == fields[2..]
  {
    BlankNameWords(a, b);
    SplitFieldsOfJoin(fields, "(" + a, b + ")");
    var tokens := [fields[0], "(" + a, b + ")"] + fields[2..];
    CommandOfFirstWord(tokens, a);
    assert tokens[3..] == fields[2..];
  }

  /** A command field `(a`, cut off from the rest of its name, reads as `a`. */
  lemma CommandOfFirstWord(tokens: seq<string>, a: string)
    requires |tokens| >= 2 && tokens[1] == "(" + a
    requires a != [] && a[0] !in Parens && a[|a| - 1] !in Parens
    ensures ParseCommand(tokens) == Success(a)
  {
    assert tokens[1] == "(" + a + "";
    CommandUnwrapped("(", a, "");
  }

  /** The parenthesised name `(a b)` is the words `(a` and `b)` around one blank. */
  lemma BlankNameWords(a: string, b: string)
    requires a != [] && NoSpace(a) && NoSpace(b)
    ensures "(" + a + " " + b + ")" == ("(" + a) + [' '] + (b + ")")
    ensures "(" + a != [] && NoSpace("(" + a) && b + ")" != [] && NoSpace(b + ")")
  {
    NoSpaceAppend("(", a);
    NoSpaceAppend(b, ")");
  }

  /**
   * `Fields` of a newline-closed line whose field 1 holds one blank: field 1
   * comes back as two fields.
   */
  lemma SplitFieldsOfJoin(fields: seq<string>, t1: string, t2: string)
    requires |fields| >= 3
    requires forall i :: 0 <= i < |fields| && i != 1 ==> fields[i] != [] && NoSpace(fields[i])
    requires fields[1] == t1 + [' '] + t2
    requires t1 != [] && NoSpace(t1) && t2 != [] && NoSpace(t2)
    ensures Fields(Join(fields, ' ') + "\n") == [fields[0], t1, t2] + fields[2..]
  {
    var tokens := [fields[0], t1, t2] + fields[2..];
    JoinOfSplitField(fields, t1, t2);
    forall i | 0 <= i < |tokens| ensures tokens[i] != [] && NoSpace(tokens[i]) {
      if i >= 3 {
        assert tokens[i] == fields[i - 1];
      }
    }
    FieldsOfJoin(tokens, "\n");
  }

  /** Joining with field 1 cut at its blank gives the same line. */
  lemma JoinOfSplitField(fields: seq<string>, t1: string, t2: string)
    requires |fields| >= 3 && fields[1] == t1 + [' '] + t2
    ensures Join(fields, ' ') == Join([fields[0], t1, t2] + fields[2..], ' ')
  {
    var tokens := [fields[0], t1, t2] + fields[2..];
    var rest := Join(fields[2..], ' ');
    assert fields[1..][1..] == fields[2..];
    assert Join(fields, ' ') == fields[0] + [' '] + (fields[1] + [' '] + rest);
    assert tokens[1..][1..][1..] == fields[2..];
    assert Join(tokens[1..][1..], ' ') == t2 + [' '] + rest;
    assert Join(tokens, ' ') == fields[0] + [' '] + (t1 + [' '] + (t2 + [' '] + rest));
  }

  lemma NoSpaceAppend(s: string, t: string)
    requires NoSpace(s) && NoSpace(t)
    ensures NoSpace(s + t)
  {
    assert forall i :: |s| <= i < |s + t| ==> (s + t)[i] == t[i - |s|];
  }

  /**
   * The state letter `S` in the parent PID's place is fatal: `ParentPID`
   * fails for a process whose command name holds a blank.
   */
  lemma ParentPidOfBlankName(parsed: seq<string>)
    requires |parsed| >= 4 && parsed[3] == "S"
    ensures ParsePpid(parsed) == Failure(BadPpid("S"))
  {
    ParseIntRejectsLetter('S', 32);
  }

  lemma PidRoundTrip(fields: seq<string>, pid: int32)
    requires |fields| >= 1 && fields[0] == FormatInt(pid as int)
    ensures ParsePid(fields) == Success(pid)
  {
    ParseIntFormat(pid as int, 0, 32);
  }

  lemma CommandRoundTrip(fields: seq<string>, comm: string)
    requires |fields| >= 2 && fields[1] == "(" + comm + ")"
    requires comm != [] && comm[0] !in Parens && comm[|comm| - 1] !in Parens
    ensures ParseCommand(fields) == Success(comm)
  {
    CommandUnwrapped("(", comm, ")");
  }

  lemma PpidRoundTrip(fields: seq<string>, ppid: int32)
    requires |fields| >= 4 && fields[3] == FormatInt(ppid as int)
    ensures ParsePpid(fields) == Success(ppid)
  {
    ParseIntFormat(ppid as int, 0, 32);
  }

  lemma StartTimeRoundTrip(fields: seq<string>, startTime: uint64)
    requires |fields| >= 22 && fields[21] == FormatUint(startTime as nat)
    ensures ParseStartTime(fields) == Success(startTime)
  {
    ParseUintFormat(startTime as nat, 0, 64);
    assert StatField(fields, 21) == Success(FormatUint(startTime as nat));
    assert ParseUint(FormatUint(startTime as nat), 0, 64) == Some(startTime as nat);
  }

  lemma StartStackRoundTrip(fields: seq<string>, startStack: uint64)
    requires |fields| >= 28 && fields[27] == FormatUint(startStack as nat)
    ensures ParseStartStack(fields) == Success(startStack)
  {
    ParseUintFormat(startStack as nat, 0, 64);
    assert StatField(fields, 27) == Success(FormatUint(startStack as nat));
    assert ParseUint(FormatUint(startStack as nat), 0, 64) == Some(startStack as nat);
  }

  // ---------------------------------------------------------------------------
  // The unique identifier
  // ---------------------------------------------------------------------------

  /**
   * The bytes that reach the hash: the start stack, then the start time, eight
   * little-endian bytes each. The boot ID is handed to `binary.Write` as a
   * `string`, which is not a fixed-size value, so that write fails and adds
   * nothing.
   */
  function HashInput(startStack: uint64, startTime: uint64): (b: seq<byte>)
    ensures |b| == 16
    ensures FromLittleEndian(b[..8]) == startStack as nat
    ensures FromLittleEndian(b[8..]) == startTime as nat
  {
    var b := Uint64Bytes(startStack) + Uint64Bytes(startTime);
    assert b[..8] == Uint64Bytes(startStack) && b[8..] == Uint64Bytes(startTime);
    b
  }

  /** Distinct (start stack, start time) pairs give distinct hash inputs. */
  lemma HashInputInjective(ss1: uint64, st1: uint64, ss2: uint64, st2: uint64)
    requires HashInput(ss1, st1) == HashInput(ss2, st2)
    ensures ss1 == ss2 && st1 == st2
  {
  }

  /** The identifier: the digest of the hash input as 64 lower-case hexadecimal digits. */
  function IdentityToken(startStack: uint64, startTime: uint64, sha256: seq<byte> -> Digest): (id: string)
    ensures |id| == 64 && IsLowerHex(id)
    ensures Unhex(id) == Some(sha256(HashInput(startStack, startTime)))
  {
    HexRoundTrip(sha256(HashInput(startStack, startTime)));
    Hex(sha256(HashInput(startStack, startTime)))
  }

  /** Two identifiers are equal exactly when the digests are: the hex text loses nothing. */
  lemma IdentityTokenFaithful(ss1: uint64, st1: uint64, ss2: uint64, st2: uint64, sha256: seq<byte> -> Digest)
    ensures IdentityToken(ss1, st1, sha256) == IdentityToken(ss2, st2, sha256)
        <==> sha256(HashInput(ss1, st1)) == sha256(HashInput(ss2, st2))
  {
    if IdentityToken(ss1, st1, sha256) == IdentityToken(ss2, st2, sha256) {
      HexInjective(sha256(HashInput(ss1, st1)), sha256(HashInput(ss2, st2)));
    }
  }

  /**
   * What a first `UniqueID` call on a fresh status record gives: the boot ID
   * must be readable (it is fetched, though it does not reach the hash), then
   * the start stack and the start time must parse.
   */
  function UniqueIDOf(bootIdReadable: bool, fields: seq<string>, sha256: seq<byte> -> Digest)
    : (r: Result<string, Fatal>)
    ensures !bootIdReadable ==> r == Failure(BootIdUnreadable)
    ensures r.Success? <==> bootIdReadable && ParseStartStack(fields).Success? && ParseStartTime(fields).Success?
    ensures r.Success? ==> |r.value| == 64 && IsLowerHex(r.value)
    ensures r.Success? ==> Unhex(r.value) == Some(sha256(HashInput(ParseStartStack(fields).value,
                                                                   ParseStartTime(fields).value)))
  {
    if !bootIdReadable then Failure(BootIdUnreadable)
    else match ParseStartStack(fields)
      case Failure(e) => Failure(e)
      case Success(ss) =>
        match ParseStartTime(fields)
        case Failure(e) => Failure(e)
        case Success(st) => Success(IdentityToken(ss, st, sha256))
  }

  /** `UniqueIDOf` case by case, in the order the values are fetched. */
  lemma UniqueIDOfParsed(bootIdReadable: bool, fields: seq<string>, sha256: seq<byte> -> Digest)
    ensures bootIdReadable && ParseStartStack(fields).Failure? ==>
      UniqueIDOf(bootIdReadable, fields, sha256) == Failure(ParseStartStack(fields).error)
    ensures bootIdReadable && ParseStartStack(fields).Success? && ParseStartTime(fields).Failure? ==>
      UniqueIDOf(bootIdReadable, fields, sha256) == Failure(ParseStartTime(fields).error)
    ensures bootIdReadable && ParseStartStack(fields).Success? && ParseStartTime(fields).Success? ==>
      UniqueIDOf(bootIdReadable, fields, sha256)
        == Success(IdentityToken(ParseStartStack(fields).value, ParseStartTime(fields).value, sha256))
  {
  }

  // ---------------------------------------------------------------------------
  // Package state: the default file system and the boot ID cache
  // ---------------------------------------------------------------------------

  /** The package-level state: the default procfs handle and the boot ID, read at most once. */
  class PackageState {
    const procFS: FileSystem
    var bootID: string
    var bootIDDone: bool
    /** How many times the boot ID file has been read. */
    ghost var bootIDReads: nat

    /** Once the boot ID is cached, it is the trimmed text of the boot ID file. */
    ghost predicate Valid()
      reads this
    {
      bootIDDone ==> procFS.ReadFile(BootIdPath).Some? && bootID == TrimSpace(procFS.ReadFile(BootIdPath).value)
    }

    constructor (procFS: FileSystem)
      ensures this.procFS == procFS
      ensures bootID == "" && !bootIDDone && bootIDReads == 0
      ensures Valid()
    {
      this.procFS := procFS;
      bootID := "";
      bootIDDone := false;
      bootIDReads := 0;
    }

    /**
     * The boot ID with surrounding whitespace trimmed. The file is read on the
     * first call only; an unreadable file is fatal.
     */
    method BootID() returns (r: Result<string, Fatal>)
      requires Valid()
      modifies this`bootID, this`bootIDDone, this`bootIDReads
      ensures Valid()
      ensures bootIDReads == old(bootIDReads) + (if old(bootIDDone) then 0 else 1)
      ensures r == match procFS.ReadFile(BootIdPath)
                   case None => Failure(BootIdUnreadable)
                   case Some(data) => Success(TrimSpace(data))
      ensures old(bootIDDone) ==> bootIDDone && bootID == old(bootID)
      ensures r.Success? ==> bootIDDone && bootID == r.value
      ensures r.Failure? ==> !bootIDDone && bootID == old(bootID)
    {
      if !bootIDDone {
        var data := procFS.ReadFile(BootIdPath);
        bootIDReads := bootIDReads + 1;
        if data.None? {
          return Failure(BootIdUnreadable);
        }
        bootID := TrimSpace(data.value);
        bootIDDone := true;
      }
      return Success(bootID);
    }
  }

  /**
   * Every call of `BootID` returns the same value, and after a success the
   * file has been read at most once.
   */
  method BootIDIsStable(pkg: PackageState) returns (first: Result<string, Fatal>, second: Result<string, Fatal>)
    requires pkg.Valid()
    modifies pkg`bootID, pkg`bootIDDone, pkg`bootIDReads
    ensures pkg.Valid()
    ensures first == second
    ensures first.Success? ==> pkg.bootIDReads <= old(pkg.bootIDReads) + 1
    ensures first.Success? ==> unchanged(pkg) || !old(pkg.bootIDDone)
  {
    first := pkg.BootID();
    second := pkg.BootID();
  }

  // ---------------------------------------------------------------------------
  // ProcessStatus: the parsed status line with its cached fields
  // ---------------------------------------------------------------------------

  /**
   * The whitespace-separated fields of `/proc/<pid>/stat`, with each derived
   * value cached in a field on first use. Zero, or the empty string, means
   * "not yet computed", so a value that really is zero is parsed again on every
   * call. `sha256` stands for Go's SHA-256, which the identifier is hashed with.
   */
  class ProcessStatus {
    const statFields: seq<string>
    const sha256: seq<byte> -> Digest
    var pid: int32
    var comm: string
    var ppid: int32
    var startTime: uint64
    var startStack: uint64
    var uniqueID: string

    /** Every cached value is the one its field parses to. */
    ghost predicate Valid()
      reads this
    {
      && PidCached() && CommCached() && PpidCached() && StartTimeCached() && StartStackCached()
      && (uniqueID != "" ==> IdentityCached())
    }

    ghost predicate PidCached()
      reads this`pid
    {
      pid != 0 ==> ParsePid(statFields) == Success(pid)
    }

    ghost predicate CommCached()
      reads this`comm
    {
      comm != "" ==> ParseCommand(statFields) == Success(comm)
    }

    ghost predicate PpidCached()
      reads this`ppid
    {
      ppid != 0 ==> ParsePpid(statFields) == Success(ppid)
    }

    ghost predicate StartTimeCached()
      reads this`startTime
    {
      startTime != 0 ==> ParseStartTime(statFields) == Success(startTime)
    }

    ghost predicate StartStackCached()
      reads this`startStack
    {
      startStack != 0 ==> ParseStartStack(statFields) == Success(startStack)
    }

    /**
     * A cached identifier is the token of the parsed start stack and start
     * time, and both are cached with the values they parse to.
     */
    ghost predicate IdentityCached()
      reads this`uniqueID, this`startStack, this`startTime
    {
      && ParseStartStack(statFields).Success? && ParseStartTime(statFields).Success?
      && startStack == ParseStartStack(statFields).value
      && startTime == ParseStartTime(statFields).value
      && uniqueID == IdentityToken(ParseStartStack(statFields).value, ParseStartTime(statFields).value, sha256)
    }

    constructor (statFields: seq<string>, sha256: seq<byte> -> Digest)
      ensures this.statFields == statFields && this.sha256 == sha256
      ensures pid == 0 && comm == "" && ppid == 0 && startTime == 0 && startStack == 0 && uniqueID == ""
      ensures Valid()
    {
      this.statFields := statFields;
      this.sha256 := sha256;
      pid, comm, ppid := 0, "", 0;
      startTime, startStack, uniqueID := 0, 0, "";
    }

    method PID() returns (r: Result<int32, Fatal>)
      requires Valid()
      modifies this`pid
      ensures Valid()
      ensures r == ParsePid(statFields)
      ensures pid == if r.Success? then r.value else old(pid)
    {
      if pid == 0 {
        if |statFields| <= 0 {
          return Failure(IndexOutOfRange(0, |statFields|));
        }
        var token := statFields[0];
        var i := ParseInt(token, 0, 32);
        if i.None? {
          return Failure(BadPid(token));
        }
        pid := i.value as int32;
      }
      return Success(pid);
    }

    method Command() returns (r: Result<string, Fatal>)
      requires Valid()
      modifies this`comm
      ensures Valid()
      ensures r == ParseCommand(statFields)
      ensures comm == if r.Success? then r.value else old(comm)
    {
      if |comm| == 0 {
        if |statFields| <= 1 {
          return Failure(IndexOutOfRange(1, |statFields|));
        }
        comm := Trim(statFields[1], Parens);
        assert ParseCommand(statFields) == Success(comm);
      }
      return Success(comm);
    }

    method ParentPID() returns (r: Result<int32, Fatal>)
      requires Valid()
      modifies this`ppid
      ensures Valid()
      ensures r == ParsePpid(statFields)
      ensures ppid == if r.Success? then r.value else old(ppid)
    {
      if ppid == 0 {
        if |statFields| <= 3 {
          return Failure(IndexOutOfRange(3, |statFields|));
        }
        var token := statFields[3];
        var i := ParseInt(token, 0, 32);
        if i.None? {
          return Failure(BadPpid(token));
        }
        ppid := i.value as int32;
      }
      return Success(ppid);
    }

    method StartTime() returns (r: Result<uint64, Fatal>)
      requires Valid()
      modifies this`startTime
      ensures Valid()
      ensures r == ParseStartTime(statFields)
      ensures startTime == if r.Success? then r.value else old(startTime)
    {
      if startTime == 0 {
        if |statFields| <= 22 - 1 {
          return Failure(IndexOutOfRange(22 - 1, |statFields|));
        }
        var token := statFields[22 - 1];
        var i := ParseUint(token, 0, 64);
        if i.None? {
          return Failure(BadStartTime(token));
        }
        startTime := i.value as uint64;
      }
      return Success(startTime);
    }

    method StartStack() returns (r: Result<uint64, Fatal>)
      requires Valid()
      modifies this`startStack
      ensures Valid()
      ensures r == ParseStartStack(statFields)
      ensures startStack == if r.Success? then r.value else old(startStack)
    {
      if startStack == 0 {
        if |statFields| <= 28 - 1 {
          return Failure(IndexOutOfRange(28 - 1, |statFields|));
        }
        var token := statFields[28 - 1];
        var i := ParseUint(token, 0, 64);
        if i.None? {
          return Failure(BadStartStack(token));
        }
        startStack := i.value as uint64;
      }
      return Success(startStack);
    }

    /** The unique identifier, computed on the first call and cached. */
    method UniqueID(pkg: PackageState) returns (r: Result<string, Fatal>)
      requires Valid() && pkg.Valid()
      modifies this`uniqueID, this`startStack, this`startTime, pkg`bootID, pkg`bootIDDone, pkg`bootIDReads
      ensures Valid() && pkg.Valid()
      ensures pkg.bootIDReads == old(pkg.bootIDReads) + (if old(uniqueID) == "" && !old(pkg.bootIDDone) then 1 else 0)
      ensures old(uniqueID) != "" ==> r == Success(old(uniqueID)) && unchanged(this) && unchanged(pkg)
      ensures old(uniqueID) == "" ==> r == UniqueIDOf(pkg.procFS.ReadFile(BootIdPath).Some?, statFields, sha256)
      ensures old(uniqueID) == "" && r.Success? ==> pkg.bootIDDone
      ensures r.Success? ==> IdentityCached() && r.value == uniqueID
      ensures r.Failure? ==> uniqueID == old(uniqueID)
    {
      if |uniqueID| == 0 {
        r := HashIdentity(pkg);
        if r.Failure? {
          return r;
        }
        uniqueID := r.value;
        assert IdentityCached();
      }
      return Success(uniqueID);
    }

    /**
     * The body of `UniqueID` when nothing is cached: fetch the boot ID, write
     * the start stack and the start time into the hash, and format the digest.
     * A success leaves the boot ID and both stat values cached.
     */
    method HashIdentity(pkg: PackageState) returns (r: Result<string, Fatal>)
      requires Valid() && pkg.Valid() && uniqueID == ""
      modifies this`startStack, this`startTime, pkg`bootID, pkg`bootIDDone, pkg`bootIDReads
      ensures Valid() && pkg.Valid()
      ensures pkg.bootIDReads == old(pkg.bootIDReads) + (if old(pkg.bootIDDone) then 0 else 1)
      ensures r == UniqueIDOf(pkg.procFS.ReadFile(BootIdPath).Some?, statFields, sha256)
      ensures r.Success? ==> && pkg.bootIDDone
                             && startStack == ParseStartStack(statFields).value
                             && startTime == ParseStartTime(statFields).value
                             && r.value == IdentityToken(startStack, startTime, sha256)
    {
      UniqueIDOfParsed(pkg.procFS.ReadFile(BootIdPath).Some?, statFields, sha256);
      // binary.Write of the boot ID: BootID() runs, but a string is not
      // fixed-size, so the write fails and nothing is written.
      var boot := pkg.BootID();
      if boot.Failure? {
        return Failure(boot.error);
      }
      var written := WriteStatValues();
      if written.Failure? {
        return Failure(written.error);
      }
      return Success(Hex(sha256(written.value)));
    }

    /**
     * The two `binary.Write` calls that reach the hash: the start stack, then
     * the start time, each as 8 little-endian bytes.
     */
    method WriteStatValues() returns (r: Result<seq<byte>, Fatal>)
      requires Valid() && uniqueID == ""
      modifies this`startStack, this`startTime
      ensures Valid()
      ensures ParseStartStack(statFields).Failure? ==> r == Failure(ParseStartStack(statFields).error)
      ensures ParseStartStack(statFields).Success? && ParseStartTime(statFields).Failure? ==>
        r == Failure(ParseStartTime(statFields).error)
      ensures r.Success? <==> ParseStartStack(statFields).Success? && ParseStartTime(statFields).Success?
      ensures r.Success? ==> && startStack == ParseStartStack(statFields).value
                             && startTime == ParseStartTime(statFields).value
                             && r.value == HashInput(startStack, startTime)
    {
      var written: seq<byte> := [];
      var ss := StartStack();
      if ss.Failure? {
        return Failure(ss.error);
      }
      written := written + Uint64Bytes(ss.value);
      var st := StartTime();
      if st.Failure? {
        return Failure(st.error);
      }
      written := written + Uint64Bytes(st.value);
      assert written == HashInput(ss.value, st.value);
      return Success(written);
    }
  }

  /** What the five numeric and text getters return. */
  datatype StatusReadings = StatusReadings(
    pid: Result<int32, Fatal>,
    comm: Result<string, Fatal>,
    ppid: Result<int32, Fatal>,
    startTime: Result<uint64, Fatal>,
    startStack: Result<uint64, Fatal>)

  /** The getters' results as functions of the status fields alone. */
  function ReadingsOf(fields: seq<string>): StatusReadings {
    StatusReadings(ParsePid(fields), ParseCommand(fields), ParsePpid(fields),
                   ParseStartTime(fields), ParseStartStack(fields))
  }

  /** Every getter returns on a second call what it returned on the first. */
  method GettersAreStable(ps: ProcessStatus)
    returns (first: StatusReadings, second: StatusReadings)
    requires ps.Valid()
    modifies ps`pid, ps`comm, ps`ppid, ps`startTime, ps`startStack
    ensures ps.Valid()
    ensures first == second == ReadingsOf(ps.statFields)
  {
    first := ReadAll(ps);
    second := ReadAll(ps);
  }

  /** One call of each getter, in order. */
  method ReadAll(ps: ProcessStatus) returns (r: StatusReadings)
    requires ps.Valid()
    modifies ps`pid, ps`comm, ps`ppid, ps`startTime, ps`startStack
    ensures ps.Valid()
    ensures r == ReadingsOf(ps.statFields)
  {
    var p := ps.PID();
    var c := ps.Command();
    var q := ps.ParentPID();
    var t := ps.StartTime();
    var k := ps.StartStack();
    r := StatusReadings(p, c, q, t, k);
  }

  /**
   * A second `UniqueID` call returns what the first returned: a cached token
   * without reading anything, or the same failure recomputed from the same
   * files.
   */
  method UniqueIDIsStable(ps: ProcessStatus, pkg: PackageState)
    returns (first: Result<string, Fatal>, second: Result<string, Fatal>)
    requires ps.Valid() && pkg.Valid()
    modifies ps`uniqueID, ps`startStack, ps`startTime, pkg`bootID, pkg`bootIDDone, pkg`bootIDReads
    ensures second == first
  {
    first := ps.UniqueID(pkg);
    second := ps.UniqueID(pkg);
  }
  // ---------------------------------------------------------------------------
  // The file system and the per-process readers
  // ---------------------------------------------------------------------------

  /**
   * The files under a procfs mount point, by path relative to it. A path that
   * is not in the map cannot be read.
   */
  datatype FileSystem = FileSystem(files: map<string, string>) {

    function ReadFile(relativePath: string): Option<string> {
      if relativePath in files then Some(files[relativePath]) else None
    }

    /** The command-line arguments of a process; none when `cmdline` cannot be read. */
    method CommandLine(pid: int32) returns (args: seq<string>)
      ensures ReadFile(PidPath(pid, "cmdline")).None? ==> args == []
      ensures ReadFile(PidPath(pid, "cmdline")).Some? ==> args == NulArgs(ReadFile(PidPath(pid, "cmdline")).value)
    {
      var read := ReadFile(PidPath(pid, "cmdline"));
      if read.None? {
        return [];
      }
      args := ReadArgs(read.value);
    }

    /** The cgroup records of a process, one per line of `cgroup`; none when it cannot be read. */
    method Cgroups(pid: int32) returns (r: Result<seq<Cgroup>, Fatal>)
      ensures r == CgroupsOf(this, pid)
    {
      var read := ReadFile(PidPath(pid, "cgroup"));
      if read.None? {
        return Success([]);
      }
      r := ReadCgroupLines(ScanLines(read.value));
    }

    /**
     * The container ID of a process: element 2 of the `/`-split path of the
     * first record whose path starts with `/docker`, or empty when none does.
     */
    method ContainerID(pid: int32) returns (r: Result<string, Fatal>)
      ensures r == match CgroupsOf(this, pid)
                   case Failure(e) => Failure(e)
                   case Success(cgroups) => ContainerIDOf(cgroups)
    {
      var read := Cgroups(pid);
      if read.Failure? {
        return Failure(read.error);
      }
      r := ScanForContainerID(read.value);
    }

    /**
     * The status record of a process, or `null` when `stat` cannot be read;
     * `sha256` is the hash its identifier is computed with.
     */
    method Stat(pid: int32, sha256: seq<byte> -> Digest) returns (ps: ProcessStatus?)
      ensures ReadFile(PidPath(pid, "stat")).None? ==> ps == null
      ensures ReadFile(PidPath(pid, "stat")).Some? ==>
        && ps != null && fresh(ps) && ps.Valid()
        && ps.statFields == Fields(ReadFile(PidPath(pid, "stat")).value) && ps.sha256 == sha256
        && ps.pid == 0 && ps.comm == "" && ps.ppid == 0
        && ps.startTime == 0 && ps.startStack == 0 && ps.uniqueID == ""
    {
      var stat := ReadFile(PidPath(pid, "stat"));
      if stat.None? {
        return null;
      }
      ps := new ProcessStatus(Fields(stat.value), sha256);
    }

    /** The unique identifier of a process, or empty when `stat` cannot be read. */
    method UniqueID(pid: int32, pkg: PackageState, sha256: seq<byte> -> Digest) returns (r: Result<string, Fatal>)
      requires pkg.Valid()
      modifies pkg`bootID, pkg`bootIDDone, pkg`bootIDReads
      ensures pkg.Valid()
      ensures ReadFile(PidPath(pid, "stat")).None? ==> r == Success("") && unchanged(pkg)
      ensures pkg.bootIDReads
                == old(pkg.bootIDReads) + (if ReadFile(PidPath(pid, "stat")).Some? && !old(pkg.bootIDDone) then 1 else 0)
      ensures ReadFile(PidPath(pid, "stat")).Some? ==>
        r == UniqueIDOf(pkg.procFS.ReadFile(BootIdPath).Some?, Fields(ReadFile(PidPath(pid, "stat")).value), sha256)
      ensures ReadFile(PidPath(pid, "stat")).Some? && r.Success? ==> pkg.bootIDDone
    {
      var ps := Stat(pid, sha256);
      if ps == null {
        return Success("");
      }
      r := ps.UniqueID(pkg);
    }
  }
}
