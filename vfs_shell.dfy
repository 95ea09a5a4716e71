/**
  `CommandLine` of day7.py: a small state machine that replays a shell
  transcript (`$ cd X`, `$ ls` and the listing lines that follow an `ls`)
  and builds the filesystem as it goes.

  The output processor the source stores is either None or the bound
  method `_cmd_ls_output_processor`; it is modelled as the flag `listing`.
  The bound method reads `_cur_dir` when it runs, so the flag is all the
  state it needs.
 */
module VfsShell {

  import opened Common
  import opened PyStr
  import opened VfsSpec
  import opened VfsTree

  datatype ShellError =
    | EmptyLine              // IndexError: `line[0]` of an empty line
    | OutputOutsideCommand   // VFSError: an output line while no command runs
    | UnknownCommand(name: string)  // VFSError: neither `cd` nor `ls`
    | CommandInOutput        // VFSError: `run_command` while `in_cmd` is set
    | LsOtherDirectory       // NotImplementedError: `ls` with an argument
    | CdMultiple             // NotImplementedError: a `cd` argument with several "/"
    | MissingArgument        // AttributeError: `cd` without an argument (`None.strip()`)
    | NoCurrentDirectory     // AttributeError: a listing line before any `cd`
    | NotADirectory          // AttributeError: `has_child` on a file entered by `cd`
    | MissingName            // IndexError: a listing line without a space
    | BadSize                // ValueError: `int()` of a size field that is no integer
    | Fs(error: FsError)     // an error raised by the filesystem objects

  // ---------------------------------------------------------------------
  // Reading command and listing lines

  /**
    `command.split(" ", 2)` read as the command name and its argument: the
    first field, and the second when there is one. A third field is ignored.
   */
  function CommandParts(command: string): (r: (string, Option<string>))
    ensures ' ' !in command ==> r == (command, None)
    ensures ' ' !in r.0
    ensures r.1.Some? ==> |r.0| + 1 + |r.1.value| <= |command| && command[..|r.0| + 1 + |r.1.value|] == r.0 + " " + r.1.value
  {
    var parts := SplitMax(command, " ", 2);
    SplitMaxHead(command, ' ', 2);
    if |parts| == 1 then
      (parts[0], None)
    else
      assert Join(parts, " ") == parts[0] + " " + Join(parts[1..], " ");
      assert |parts| == 3 ==> Join(parts[1..], " ") == parts[1] + " " + Join(parts[2..], " ");
      (parts[0], Some(parts[1]))
  }

  /** The kind an `ls` output line gives: a directory, or a file of some size. */
  datatype Listing = DirListing | FileListing(size: int)

  /** The item name of a listing line: its second space-separated field, stripped. */
  function ListingName(line: string): (r: Option<string>)
    ensures r.None? <==> ' ' !in line
    ensures r.Some? ==> r.value == [] || (!IsSpace(r.value[0]) && !IsSpace(r.value[|r.value| - 1]))
  {
    var parts := Split(line, " ");
    SplitSingle(line, ' ');
    if |parts| < 2 then None else StripSpec(parts[1]); Some(Strip(parts[1]))
  }

  /** The first field of a listing line: "dir", or a size `int()` accepts. */
  function ListingKind(line: string): (r: Option<Listing>)
    ensures r == Some(DirListing) <==> Split(line, " ")[0] == "dir"
    ensures r.Some? && r.value.FileListing? ==> ParseInt(Split(line, " ")[0]) == Some(r.value.size)
    ensures r.None? <==> Split(line, " ")[0] != "dir" && ParseInt(Split(line, " ")[0]).None?
  {
    var field := Split(line, " ")[0];
    if field == "dir" then Some(DirListing)
    else match ParseInt(field)
      case None => None
      case Some(n) => Some(FileListing(n))
  }

  /** The first field `ls` prints for an entry: "dir" or the file size. */
  function KindField(kind: Listing): (r: string)
    requires kind.FileListing? ==> kind.size >= 0
    ensures ' ' !in r
  {
    if kind.DirListing? then "dir"
    else
      var f := NatToString(kind.size);
      assert forall i | 0 <= i < |f| :: IsDigit(f[i]);
      f
  }

  /** The listing line `ls` prints for an entry, as read from the transcript. */
  function ListingLine(kind: Listing, name: string): string
    requires kind.FileListing? ==> kind.size >= 0
  {
    KindField(kind) + " " + name + "\n"
  }

  /** A listing line splits at its one space into the kind field and the rest. */
  lemma ListingSplit(kind: Listing, name: string)
    requires kind.FileListing? ==> kind.size >= 0
    requires NoSpace(name)
    ensures Split(ListingLine(kind, name), " ") == [KindField(kind), name + "\n"]
  {
    assert ' ' !in name + "\n" by {
      assert forall i | 0 <= i < |name| :: !IsSpace(name[i]);
    }
    var parts := [KindField(kind), name + "\n"];
    assert Join(parts, " ") == ListingLine(kind, name);
    SplitJoin(parts, ' ');
  }

  /** Reading a listing line recovers the entry `ls` printed. */
  lemma ListingRoundTrip(kind: Listing, name: string)
    requires kind.FileListing? ==> kind.size >= 0
    requires name != [] && NoSpace(name)
    ensures ListingName(ListingLine(kind, name)) == Some(name)
    ensures ListingKind(ListingLine(kind, name)) == Some(kind)
  {
    ListingSplit(kind, name);
    StripTrailing(name, "\n");
    if kind.FileListing? {
      ParseIntOfNatToString(kind.size);
    }
  }

  /** Reading a `$` line recovers the command and argument typed. */
  lemma CommandRoundTrip(name: string, arg: string)
    requires ' ' !in name && ' ' !in arg
    ensures CommandParts(name + " " + arg) == (name, Some(arg))
    ensures CommandParts(name) == (name, None)
  {
    SplitMaxJoin([name, arg], ' ', 2);
    assert Join([name, arg], " ") == name + " " + arg;
  }

  /** The argument `cd` refuses: more than one "/", other than "/" itself. */
  predicate CdMultiplePath(arg: string) {
    CountChar(arg, '/') > 1 && arg != "/"
  }

  // ---------------------------------------------------------------------
  // The interpreter as a relation between states

  /**
    What a `CommandLine` holds: the arena (with its ghost ranking), the size
    cache and the next id of its filesystem, then its own fields.
   */
  datatype Shell = Shell(tree: Tree, cache: map<NodeId, nat>, next: NodeId,
                         curDir: Option<NodeId>, topDir: Option<NodeId>, inCmd: bool, listing: bool)

  /** The arena, the cache and the next id are as they were. */
  ghost predicate SameFs(s0: Shell, s1: Shell) {
    s1.tree.nodes == s0.tree.nodes && s1.cache == s0.cache && s1.next == s0.next
  }

  /** A directory named `name` created below `parent` goes from `s0` to `s1`. */
  ghost predicate AddedDir(s0: Shell, name: string, parent: Option<NodeId>, s1: Shell) {
    Added(s0.tree.nodes, s0.cache, s0.next, Node(name, parent, Dir([], name == "/")), s1.tree, s1.cache, s1.next)
  }

  /**
    `_cmd_ls_output_processor(line)`: the directory or file the line names
    is added below the current directory, unless a child of that name
    exists. Only the filesystem changes.
   */
  ghost predicate LsOutputStep(s0: Shell, line: string, r: Result<(), ShellError>, s1: Shell) {
    if ListingName(line).None? then r == Err(MissingName) && s1 == s0
    else if s0.curDir.None? then r == Err(NoCurrentDirectory) && s1 == s0
    else if !IsDir(s0.tree.nodes, s0.curDir.value) then r == Err(NotADirectory) && s1 == s0
    else
      var name, d, nodes := ListingName(line).value, s0.curDir.value, s0.tree.nodes;
      if NameTaken(nodes, Children(nodes, d), name) then r == Ok(()) && s1 == s0
      else match ListingKind(line)
        case None => r == Err(BadSize) && s1 == s0
        case Some(FileListing(n)) =>
          && s1.(tree := s0.tree, cache := s0.cache, next := s0.next) == s0
          && if n < 0 then r == Err(Fs(NegativeSize)) && SameFs(s0, s1)
             else if !ValidName(name) then r == Err(Fs(InvalidName)) && SameFs(s0, s1)
             else r == Ok(()) && Added(nodes, s0.cache, s0.next, Node(name, Some(d), File(n)), s1.tree, s1.cache, s1.next)
        case Some(DirListing) =>
          && s1.(tree := s0.tree, cache := s0.cache, next := s0.next) == s0
          && if !ValidName(name) then r == Err(Fs(InvalidName)) && SameFs(s0, s1)
             else r == Ok(()) && AddedDir(s0, name, Some(d), s1)
  }

  /** `_cmd_ls(arg)`: only without an argument; it enters output mode and hands back the processor. */
  ghost predicate LsStep(s0: Shell, arg: Option<string>, r: Result<bool, ShellError>, s1: Shell) {
    if arg.Some? then r == Err(LsOtherDirectory) && s1 == s0
    else r == Ok(true) && s1 == s0.(inCmd := true)
  }

  /**
    The `else` branch of `_cmd_cd(a)`, below the current directory `c`: an
    existing child of that name is entered (even a file), else ".." goes to
    the parent (None above the top), else a new directory is made and
    entered. Only the current directory and the filesystem change.
   */
  ghost predicate CdFromStep(s0: Shell, a: string, r: Result<bool, ShellError>, s1: Shell)
    requires s0.curDir.Some?
  {
    var c, nodes := s0.curDir.value, s0.tree.nodes;
    if !IsDir(nodes, c) then r == Err(NotADirectory) && s1 == s0
    else if NameTaken(nodes, Children(nodes, c), a) then
      && r == Ok(false) && SameFs(s0, s1) && s1.tree == s0.tree
      && s1.curDir.Some? && s1.curDir.value in Children(nodes, c)
      && s1.curDir.value in nodes && nodes[s1.curDir.value].name == a
      && s1.(curDir := s0.curDir) == s0
    else if a == ".." then
      r == Ok(false) && s1 == s0.(curDir := nodes[c].parent)
    else
      && s1.(tree := s0.tree, cache := s0.cache, next := s0.next, curDir := s0.curDir) == s0
      && if ValidName(a) then r == Ok(false) && s1.curDir == Some(s0.next) && AddedDir(s0, a, Some(c), s1)
         else r == Err(Fs(InvalidName)) && SameFs(s0, s1) && s1.curDir == s0.curDir
  }

  /**
    `_cmd_cd(arg)`: the argument is stripped; several "/" are refused
    (except "/" itself); the first `cd` makes the top directory, later ones
    go on from the current directory.
   */
  ghost predicate CdStep(s0: Shell, arg: Option<string>, r: Result<bool, ShellError>, s1: Shell) {
    if arg.None? then r == Err(MissingArgument) && s1 == s0
    else
      var a := Strip(arg.value);
      if CdMultiplePath(a) then r == Err(CdMultiple) && s1 == s0
      else if s0.curDir.None? then
        && s1.(tree := s0.tree, cache := s0.cache, next := s0.next, curDir := s0.curDir, topDir := s0.topDir) == s0
        && if ValidName(a) then r == Ok(false) && s1.curDir == s1.topDir == Some(s0.next) && AddedDir(s0, a, None, s1)
           else r == Err(Fs(InvalidName)) && SameFs(s0, s1) && s1.curDir == s0.curDir && s1.topDir == s0.topDir
      else
        CdFromStep(s0, a, r, s1)
  }

  /**
    `run_command(command)`: an unknown name is refused first, then any
    command while output is expected; otherwise the handler runs and what it
    hands back (the processor for `ls`, None for `cd`) becomes the output
    processor. A failing handler leaves the processor as it was.
   */
  ghost predicate RunCommandStep(s0: Shell, command: string, r: Result<(), ShellError>, s1: Shell) {
    var (name, arg) := CommandParts(command);
    if name != "cd" && name != "ls" then r == Err(UnknownCommand(name)) && s1 == s0
    else if s0.inCmd then r == Err(CommandInOutput) && s1 == s0
    else if name == "ls" then
      if arg.Some? then r == Err(LsOtherDirectory) && s1 == s0
      else r == Ok(()) && s1 == s0.(inCmd := true, listing := true)
    else
      && CdStep(s0, arg, if r.Ok? then Ok(false) else Err(r.error), s1.(listing := s0.listing))
      && s1.listing == (if r.Ok? then false else s0.listing)
  }

  /** What `process_command_line` sees in a line: nothing, a `$` command (the rest of the line, stripped), or output. */
  datatype LineKind = Blank | Command(text: string) | Output

  function KindOf(line: string): (k: LineKind)
    ensures k == Blank <==> line == []
    ensures k.Command? <==> line != [] && line[0] == '$'
  {
    if line == [] then Blank
    else if line[0] == '$' then Command(Strip(line[1..]))
    else Output
  }

  /**
    `process_command_line(line)`: a `$` line ends any running command and
    runs the rest of the line, stripped; any other line is output, refused
    outside a command and handed to the output processor when there is one.
   */
  ghost predicate LineStep(s0: Shell, line: string, r: Result<(), ShellError>, s1: Shell) {
    match KindOf(line)
    case Blank => r == Err(EmptyLine) && s1 == s0
    case Command(text) => RunCommandStep(s0.(inCmd := false), text, r, s1)
    case Output =>
      if !s0.inCmd then r == Err(OutputOutsideCommand) && s1 == s0
      else if s0.listing then LsOutputStep(s0, line, r, s1)
      else r == Ok(()) && s1 == s0
  }

  /**
    A `$` line can fail for many reasons, but never as "command output
    processed as a command": `process_command_line` clears `in_cmd` first.
   */
  lemma CommandLineNeverInOutput(s0: Shell, line: string, r: Result<(), ShellError>, s1: Shell)
    requires LineStep(s0, line, r, s1) && line != [] && line[0] == '$'
    ensures r != Err(CommandInOutput)
  {
    var (name, arg) := CommandParts(Strip(line[1..]));
    var s := s0.(inCmd := false);
    if name == "cd" && r.Err? {
      var h: Result<bool, ShellError> := Err(r.error);
      assert CdStep(s, arg, h, s1.(listing := s.listing));
      if arg.Some? && !CdMultiplePath(Strip(arg.value)) && s.curDir.Some? {
        assert CdFromStep(s, Strip(arg.value), h, s1.(listing := s.listing));
      }
    }
  }

  /** A `dir x` line names a directory `x` that is not there yet: it is added to the current directory. */
  lemma ListedDirectoryAdded(s0: Shell, x: string, s1: Shell)
    requires x != [] && NoSpace(x)
    requires s0.curDir.Some? && IsDir(s0.tree.nodes, s0.curDir.value)
    requires !NameTaken(s0.tree.nodes, Children(s0.tree.nodes, s0.curDir.value), x)
    requires LsOutputStep(s0, ListingLine(DirListing, x), Ok(()), s1)
    ensures s1.curDir == s0.curDir && s1.next == s0.next + 1
    ensures s1.tree.nodes == WithChildren(s0.tree.nodes[s0.next := Node(x, s0.curDir, Dir([], x == "/"))],
                                          s0.curDir.value, Children(s0.tree.nodes, s0.curDir.value) + [s0.next])
  {
    ListingRoundTrip(DirListing, x);
    assert ValidName(x) by {
      assert forall i | 0 <= i < |x| :: !IsSpace(x[i]);
    }
  }

  /**
    A directory that `ls` has just listed below the current directory is
    where `cd` with its name goes next: the new node, not some other child.
   */
  lemma ListedDirectoryEntered(s0: Shell, x: string, s1: Shell, r: Result<bool, ShellError>, s2: Shell)
    requires x != [] && NoSpace(x)
    requires s0.curDir.Some? && IsDir(s0.tree.nodes, s0.curDir.value) && s0.next !in s0.tree.nodes
    requires !NameTaken(s0.tree.nodes, Children(s0.tree.nodes, s0.curDir.value), x)
    requires LsOutputStep(s0, ListingLine(DirListing, x), Ok(()), s1)
    requires s1.curDir.Some? && CdFromStep(s1, x, r, s2)
    ensures r == Ok(false) && s2.curDir == Some(s0.next)
  {
    ListedDirectoryAdded(s0, x, s1);
    var d, nodes0, next0 := s0.curDir.value, s0.tree.nodes, s0.next;
    var cs0, nodes1 := Children(nodes0, d), s1.tree.nodes;
    assert Children(nodes1, d) == cs0 + [next0];
    assert (cs0 + [next0])[|cs0|] == next0 && nodes1[next0].name == x;
    assert NameTaken(nodes1, Children(nodes1, d), x);
  }

  /** The first `n` lines each took the shell from one state of `trace` to the next without an error. */
  ghost predicate Ran(trace: seq<Shell>, lines: seq<string>, n: nat)
    requires n < |trace| && n <= |lines|
  {
    forall j {:trigger LineStep(trace[j], lines[j], Ok(()), trace[j + 1])} | 0 <= j < n ::
      LineStep(trace[j], lines[j], Ok(()), trace[j + 1])
  }

  /** A run is unaffected by a state appended to its trace. */
  lemma RanPrefix(trace: seq<Shell>, lines: seq<string>, n: nat, s: Shell)
    requires n < |trace| && n <= |lines| && Ran(trace, lines, n)
    ensures Ran(trace + [s], lines, n)
  {
    var t := trace + [s];
    forall j | 0 <= j < n
      ensures LineStep(t[j], lines[j], Ok(()), t[j + 1])
    {
      assert t[j] == trace[j] && t[j + 1] == trace[j + 1];
      assert LineStep(trace[j], lines[j], Ok(()), trace[j + 1]);
    }
  }

  /** A run of `n` lines and one more successful line is a run of `n + 1` lines. */
  lemma RanStep(trace: seq<Shell>, lines: seq<string>, n: nat, s: Shell)
    requires |trace| == n + 1 && n < |lines| && Ran(trace, lines, n)
    requires LineStep(trace[n], lines[n], Ok(()), s)
    ensures Ran(trace + [s], lines, n + 1)
  {
    RanPrefix(trace, lines, n, s);
    var t := trace + [s];
    assert t[n] == trace[n] && t[n + 1] == s;
    assert LineStep(t[n], lines[n], Ok(()), t[n + 1]);
  }

  class CommandLine {
    const fs: FileSystem
    var curDir: Option<NodeId>
    var topDir: Option<NodeId>
    var inCmd: bool
    /** `_output_processor` is the `ls` output processor (rather than None). */
    var listing: bool

    ghost predicate Valid()
      reads this, fs
    {
      && fs.Valid()
      && (curDir.Some? ==> curDir.value in fs.nodes)
    }

    /** The whole state, as the relations above read it. */
    ghost function Snap(): Shell
      reads this, fs
    {
      Shell(fs.Tr(), fs.cache, fs.next, curDir, topDir, inCmd, listing)
    }

    constructor ()
      ensures Valid() && fresh(fs)
      ensures fs.nodes == map[] && fs.cache == map[] && fs.next == 0
      ensures curDir.None? && topDir.None? && !inCmd && !listing
    {
      fs := new FileSystem();
      curDir := None;
      topDir := None;
      inCmd := false;
      listing := false;
    }

    /** `_cmd_ls_output_processor`, as `LsOutputStep` describes it. */
    method LsOutput(line: string) returns (r: Result<(), ShellError>)
      requires Valid()
      modifies fs
      ensures Valid() && LsOutputStep(old(Snap()), line, r, Snap())
    {
      var name := ListingName(line);
      if name.None? {
        return Err(MissingName);
      }
      if curDir.None? {
        return Err(NoCurrentDirectory);
      }
      var d := curDir.value;
      if !IsDir(fs.nodes, d) {
        return Err(NotADirectory);
      }
      var present := fs.HasChild(d, name.value);
      if present {
        return Ok(());
      }
      var kind := ListingKind(line);
      if kind.None? {
        return Err(BadSize);
      }
      var made;
      if kind.value.DirListing? {
        made := fs.NewDirectory(name.value, Some(d));
      } else {
        made := fs.NewFile(name.value, kind.value.size, Some(d));
      }
      if made.Err? {
        return Err(Fs(made.error));
      }
      return Ok(());
    }

    /** `_cmd_ls`, as `LsStep` describes it. */
    method CmdLs(arg: Option<string>) returns (r: Result<bool, ShellError>)
      modifies this`inCmd
      ensures LsStep(old(Snap()), arg, r, Snap())
    {
      if arg.Some? {
        return Err(LsOtherDirectory);
      }
      inCmd := true;
      return Ok(true);
    }

    /** `_cmd_cd`, as `CdStep` describes it. */
    method CmdCd(arg: Option<string>) returns (r: Result<bool, ShellError>)
      requires Valid()
      modifies this`curDir, this`topDir, fs
      ensures Valid() && CdStep(old(Snap()), arg, r, Snap())
    {
      if arg.None? {
        return Err(MissingArgument);
      }
      var a := Strip(arg.value);
      if CdMultiplePath(a) {
        return Err(CdMultiple);
      }
      if curDir.None? {
        var made := fs.NewDirectory(a, None);
        if made.Err? {
          return Err(Fs(made.error));
        }
        curDir := Some(made.value);
        topDir := curDir;
        return Ok(false);
      }
      r := CdFromCurrent(a);
    }

    /** The `else` branch of `_cmd_cd`, as `CdFromStep` describes it. */
    method CdFromCurrent(a: string) returns (r: Result<bool, ShellError>)
      requires Valid() && curDir.Some?
      modifies this`curDir, fs
      ensures Valid() && CdFromStep(old(Snap()), a, r, Snap())
    {
      var c := curDir.value;
      if !IsDir(fs.nodes, c) {
        return Err(NotADirectory);
      }
      var present := fs.HasChild(c, a);
      if present {
        var child := fs.GetChild(c, a);
        curDir := child;
        return Ok(false);
      }
      if a == ".." {
        if fs.nodes[c].parent.Some? {
          ParentOf(fs.Tr(), c);
        }
        curDir := fs.nodes[c].parent;
        return Ok(false);
      }
      var made := fs.NewDirectory(a, Some(c));
      if made.Err? {
        return Err(Fs(made.error));
      }
      curDir := Some(made.value);
      return Ok(false);
    }

    /** `cmd_funcs[name](arg)`: the handler of a known command, called on its argument. */
    method Dispatch(name: string, arg: Option<string>) returns (r: Result<bool, ShellError>)
      requires Valid() && (name == "cd" || name == "ls")
      modifies this`curDir, this`topDir, this`inCmd, fs
      ensures Valid()
      ensures name == "cd" ==> CdStep(old(Snap()), arg, r, Snap())
      ensures name == "ls" ==> LsStep(old(Snap()), arg, r, Snap())
    {
      if name == "cd" {
        r := CmdCd(arg);
      } else {
        r := CmdLs(arg);
      }
    }

    /** `run_command`, as `RunCommandStep` describes it. */
    method RunCommand(command: string) returns (r: Result<(), ShellError>)
      requires Valid()
      modifies this, fs
      ensures Valid() && RunCommandStep(old(Snap()), command, r, Snap())
    {
      var (name, arg) := CommandParts(command);
      if name != "cd" && name != "ls" {
        r := Err(UnknownCommand(name));
      } else if inCmd {
        r := Err(CommandInOutput);
      } else {
        var handled := Dispatch(name, arg);
        if handled.Err? {
          r := Err(handled.error);
        } else {
          listing := handled.value;
          r := Ok(());
        }
      }
    }

    /** `process_command_line`, as `LineStep` describes it. */
    method ProcessCommandLine(line: string) returns (r: Result<(), ShellError>)
      requires Valid()
      modifies this, fs
      ensures Valid() && LineStep(old(Snap()), line, r, Snap())
    {
      if line == [] {
        return Err(EmptyLine);
      }
      if line[0] == '$' {
        inCmd := false;
        r := RunCommand(Strip(line[1..]));
        return;
      }
      if !inCmd {
        return Err(OutputOutsideCommand);
      }
      if listing {
        r := LsOutput(line);
      } else {
        r := Ok(());
      }
    }

    /**
      The loop of `main`: every line in turn, until one raises. The ghost
      `trace` holds the state before each line that ran and, last, the state
      after it: the lines before `failedAt` all succeeded, and on an error
      the line at `failedAt` raised it.
     */
    method Replay(lines: seq<string>) returns (r: Result<(), ShellError>, failedAt: nat, ghost trace: seq<Shell>)
      requires Valid()
      modifies this, fs
      ensures Valid()
      ensures r.Ok? ==> failedAt == |lines| && |trace| == failedAt + 1
      ensures r.Err? ==> failedAt < |lines| && |trace| == failedAt + 2
      ensures trace[0] == old(Snap()) && trace[|trace| - 1] == Snap()
      ensures Ran(trace, lines, failedAt)
      ensures r.Err? ==> LineStep(trace[failedAt], lines[failedAt], r, trace[failedAt + 1])
    {
      var i := 0;
      trace := [Snap()];
      while i < |lines|
        invariant i <= |lines| && Valid()
        invariant |trace| == i + 1 && trace[0] == old(Snap()) && trace[i] == Snap()
        invariant Ran(trace, lines, i)
      {
        ghost var s0 := Snap();
        var step := ProcessCommandLine(lines[i]);
        ghost var s1 := Snap();
        if step.Err? {
          RanPrefix(trace, lines, i, s1);
          trace := trace + [s1];
          assert trace[i] == s0 && trace[i + 1] == s1;
          return step, i, trace;
        }
        assert step.value == ();
        assert step == Ok(());
        RanStep(trace, lines, i, s1);
        trace := trace + [s1];
        i := i + 1;
      }
      return Ok(()), i, trace;
    }
  }
}
