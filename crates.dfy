/**
 * Crate-stack simulation (day5.py).
 *
 * A drawing of crate stacks is cut into fixed-width cells, turned into one
 * list of crates per stack label, and then rearranged by `move N from A to B`
 * lines twice: once one crate at a time (simulation 1) and once N crates as a
 * block (simulation 2).  Both stack dictionaries are module state that the
 * moves update in place; they are the fields of a `Dock`.
 */
module Crates {
  import opened Common
  import opened PyStr

  // ---------------------------------------------------------------------
  // fixed_width_split_string

  /** Concatenation of a list of strings. */
  function Flatten(parts: seq<string>): string
  {
    if parts == [] then [] else parts[0] + Flatten(parts[1..])
  }

  /**
   * `s` cut into consecutive chunks of `size` characters; the last chunk
   * may be shorter, but never empty.
   */
  function Chunks(s: string, size: nat): (r: seq<string>)
    requires size > 0
    ensures (r == []) <==> (s == [])
    ensures forall i | 0 <= i < |r| :: 0 < |r[i]| <= size
    decreases |s|
  {
    if s == [] then []
    else if |s| <= size then [s]
    else [s[..size]] + Chunks(s[size..], size)
  }

  /**
   * The chunks concatenate back to `s`; all have length `size` except the
   * last, which is shorter or equal but never empty.
   */
  lemma {:induction false} ChunksSplit(s: string, size: nat)
    requires size > 0
    ensures var r := Chunks(s, size);
      Flatten(r) == s && (forall i | 0 <= i < |r| - 1 :: |r[i]| == size) &&
      (r != [] ==> 0 < |r[|r| - 1]| <= size) && (r == [] <==> s == [])
    decreases |s|
  {
    if |s| > size {
      ChunksSplit(s[size..], size);
      var r := Chunks(s, size);
      assert r[1..] == Chunks(s[size..], size);
      assert s == s[..size] + s[size..];
    }
  }

  /** `fixed_width_split_string(string, size)`. */
  method FixedWidthSplit(s: string, size: int) returns (r: seq<string>)
    requires size > 0
    ensures r == Chunks(s, size)
  {
    r := [];
    var pos := 0;
    while pos < |s|
      invariant 0 <= pos
      invariant r + Chunks(if pos < |s| then s[pos..] else [], size) == Chunks(s, size)
    {
      var end := if pos + size < |s| then pos + size else |s|;
      assert Chunks(s[pos..], size) == [s[pos..end]] + Chunks(if end < |s| then s[end..] else [], size) by {
        if end < |s| {
          assert s[pos..][..size] == s[pos..end];
          assert s[pos..][size..] == s[end..];
        } else {
          assert s[pos..end] == s[pos..];
        }
      }
      r := r + [s[pos..end]];
      pos := pos + size;
    }
  }

  // ---------------------------------------------------------------------
  // Reading the drawing

  /** The characters `re.sub(r"[\s\[\]]", "", item)` removes. */
  predicate Discarded(c: char)
  {
    IsSpace(c) || c == '[' || c == ']'
  }

  /** `re.sub(r"[\s\[\]]", "", item)`: the item with whitespace and brackets removed. */
  function CleanItem(item: string): (r: string)
    ensures |r| <= |item|
    ensures forall i | 0 <= i < |r| :: !Discarded(r[i])
    ensures (forall i | 0 <= i < |item| :: !Discarded(item[i])) ==> r == item
  {
    if item == [] then []
    else (if Discarded(item[0]) then [] else [item[0]]) + CleanItem(item[1..])
  }

  /** `line` as one row of the drawing: its 4-wide cells, cleaned. */
  function DrawingRow(line: string): (r: seq<string>)
    ensures (r == []) <==> (line == [])
    ensures forall i | 0 <= i < |r| :: |r[i]| <= 4 && forall j | 0 <= j < |r[i]| :: !Discarded(r[i][j])
  {
    var cells := Chunks(line, 4);
    seq(|cells|, i requires 0 <= i < |cells| => CleanItem(cells[i]))
  }

  /** How the drawing shows one cell: `[c]` for a crate, blanks for none. */
  function CellText(cell: Option<char>): string
  {
    match cell
    case Some(c) => ['[', c, ']']
    case None => "   "
  }

  /** A drawing row: the cells separated by single spaces, then a newline. */
  function RenderRow(cells: seq<Option<char>>): string
    requires cells != []
  {
    if |cells| == 1 then CellText(cells[0]) + "\n"
    else CellText(cells[0]) + " " + RenderRow(cells[1..])
  }

  /** What a cleaned cell holds: the crate's letter, or nothing. */
  function CellItem(cell: Option<char>): string
  {
    match cell
    case Some(c) => [c]
    case None => ""
  }

  /** Reading a rendered row gives back one item per cell. */
  lemma {:induction false} DrawingRowOfRender(cells: seq<Option<char>>)
    requires cells != []
    requires forall i | 0 <= i < |cells| :: cells[i].Some? ==> !Discarded(cells[i].value)
    ensures DrawingRow(RenderRow(cells)) == seq(|cells|, i requires 0 <= i < |cells| => CellItem(cells[i]))
    decreases |cells|
  {
    var line := RenderRow(cells);
    var t := CellText(cells[0]);
    if |cells| == 1 {
      assert Chunks(line, 4) == [line];
      CleanCell(cells[0], "\n");
    } else {
      var rest := RenderRow(cells[1..]);
      assert line == (t + " ") + rest;
      RenderRowLength(cells[1..]);
      DrawingRowCons(t + " ", rest);
      CleanCell(cells[0], " ");
      DrawingRowOfRender(cells[1..]);
      var want := seq(|cells|, i requires 0 <= i < |cells| => CellItem(cells[i]));
      assert want == [CellItem(cells[0])] + seq(|cells[1..]|, i requires 0 <= i < |cells[1..]| => CellItem(cells[1..][i]));
    }
  }

  /** A full first cell is read on its own, then the rest of the line. */
  lemma DrawingRowCons(head: string, rest: string)
    requires |head| == 4 && rest != []
    ensures DrawingRow(head + rest) == [CleanItem(head)] + DrawingRow(rest)
  {
    var line := head + rest;
    assert line[..4] == head && line[4..] == rest;
    var cells, restCells := Chunks(line, 4), Chunks(rest, 4);
    assert cells == [head] + restCells;
    var l, r := DrawingRow(line), [CleanItem(head)] + DrawingRow(rest);
    assert |l| == |r|;
    forall i | 0 <= i < |l| ensures l[i] == r[i] {
      if i > 0 {
        assert cells[i] == restCells[i - 1];
      }
    }
  }

  lemma RenderRowLength(cells: seq<Option<char>>)
    requires cells != []
    ensures |RenderRow(cells)| == 4 * |cells|
  {
  }

  lemma {:induction false} CleanItemAppend(a: string, b: string)
    ensures CleanItem(a + b) == CleanItem(a) + CleanItem(b)
  {
    if a == [] {
      assert a + b == b;
    } else {
      assert (a + b)[1..] == a[1..] + b;
      CleanItemAppend(a[1..], b);
    }
  }

  lemma CleanCell(cell: Option<char>, pad: string)
    requires |pad| == 1 && IsSpace(pad[0])
    requires cell.Some? ==> !Discarded(cell.value)
    ensures CleanItem(CellText(cell) + pad) == CellItem(cell)
  {
    var t := CellText(cell);
    assert t + pad == [t[0]] + [t[1]] + [t[2]] + pad;
    CleanItemAppend([t[0]] + [t[1]] + [t[2]], pad);
    CleanItemAppend([t[0]] + [t[1]], [t[2]]);
    CleanItemAppend([t[0]], [t[1]]);
  }

  // ---------------------------------------------------------------------
  // get_movement_info

  /** A parsed movement line. */
  datatype Movement = Movement(from: string, to: string, total: nat, text: string)

  /** The longest prefix of `s` made of decimal digits. */
  function Digits(s: string): (r: string)
    ensures |r| <= |s| && r == s[..|r|] && AllDigits(r)
    ensures |r| == |s| || !IsDigit(s[|r|])
  {
    if s == [] || !IsDigit(s[0]) then [] else [s[0]] + Digits(s[1..])
  }

  lemma DigitsOf(ds: string, rest: string)
    requires AllDigits(ds) && (rest == [] || !IsDigit(rest[0]))
    ensures Digits(ds + rest) == ds
  {
    if ds != [] {
      assert (ds + rest)[1..] == ds[1..] + rest;
      DigitsOf(ds[1..], rest);
    }
  }

  /** The text of a movement line, without its newline. */
  function MoveText(n: string, a: string, b: string): string
  {
    "move " + (n + (" from " + (a + (" to " + b))))
  }

  /** What follows the literal prefix `lit` of `s`, if `s` starts with it. */
  function After(s: string, lit: string): (r: Option<string>)
    ensures r.Some? <==> |lit| <= |s| && s[..|lit|] == lit
    ensures r.Some? ==> s == lit + r.value
  {
    if |lit| <= |s| && s[..|lit|] == lit then Some(s[|lit|..]) else None
  }

  /** The digit run `\d+` at the front of `s` (maybe empty), and what follows it. */
  function Number(s: string): (r: (string, string))
    ensures s == r.0 + r.1 && AllDigits(r.0) && (r.1 == [] || !IsDigit(r.1[0]))
  {
    var d := Digits(s);
    assert s == d + s[|d|..];
    (d, s[|d|..])
  }

  /** The three digit groups of `move N from A to B`. */
  function MoveFields(body: string): (r: Option<(string, string, string)>)
    ensures r.Some? ==> var (n, a, b) := r.value;
      n != [] && AllDigits(n) && a != [] && AllDigits(a) && b != [] && AllDigits(b) &&
      body == MoveText(n, a, b)
  {
    match After(body, "move ")
    case None => None
    case Some(s1) =>
      var (n, s2) := Number(s1);
      if n == [] then None
      else match After(s2, " from ")
      case None => None
      case Some(s3) =>
        var (a, s4) := Number(s3);
        if a == [] then None
        else match After(s4, " to ")
        case None => None
        case Some(b) =>
          if b == [] || !AllDigits(b) then None else Some((n, a, b))
  }

  /** The line without one final newline: where `$` may match. */
  function LineBody(line: string): (r: string)
    ensures line == r || line == r + "\n"
  {
    if |line| > 0 && line[|line| - 1] == '\n' then line[..|line| - 1] else line
  }

  /**
   * `get_movement_info`: `^move (\d+) from (\d+) to (\d+)$`, where `$` also
   * matches before one final newline.  A line that does not match is the
   * source's AttributeError on `None`, here `None`.
   */
  function ParseMove(line: string): (r: Option<Movement>)
    ensures r.Some? ==> exists n :: (n != [] && AllDigits(n) &&
      r.value.from != [] && AllDigits(r.value.from) && r.value.to != [] && AllDigits(r.value.to) &&
      r.value.total == DigitsValue(n) && r.value.text == MoveText(n, r.value.from, r.value.to) &&
      (line == r.value.text || line == r.value.text + "\n"))
  {
    var body := LineBody(line);
    match MoveFields(body)
    case None => None
    case Some((n, a, b)) => Some(Movement(a, b, DigitsValue(n), body))
  }

  /** Every well-formed movement line parses to its three numbers. */
  lemma ParseMoveOf(n: string, a: string, b: string, newline: bool)
    requires n != [] && AllDigits(n) && a != [] && AllDigits(a) && b != [] && AllDigits(b)
    ensures ParseMove(MoveText(n, a, b) + (if newline then "\n" else "")) ==
            Some(Movement(a, b, DigitsValue(n), MoveText(n, a, b)))
  {
    var text := MoveText(n, a, b);
    assert text[|text| - 1] == b[|b| - 1];
    LineBodyOf(text, newline);
    MoveFieldsOf(n, a, b);
  }

  lemma MoveFieldsOf(n: string, a: string, b: string)
    requires n != [] && AllDigits(n) && a != [] && AllDigits(a) && b != [] && AllDigits(b)
    ensures MoveFields(MoveText(n, a, b)) == Some((n, a, b))
  {
    var s3 := " to " + b;
    var s2 := " from " + (a + s3);
    AfterOf("move ", n + s2);
    NumberOf(n, s2);
    AfterOf(" from ", a + s3);
    NumberOf(a, s3);
    AfterOf(" to ", b);
  }

  lemma LineBodyOf(text: string, newline: bool)
    requires text != [] && text[|text| - 1] != '\n'
    ensures LineBody(text + (if newline then "\n" else "")) == text
  {
    if newline {
      assert (text + "\n")[..|text|] == text;
    } else {
      assert text + "" == text;
    }
  }

  lemma AfterOf(lit: string, t: string)
    ensures After(lit + t, lit) == Some(t)
  {
    assert (lit + t)[..|lit|] == lit;
    assert (lit + t)[|lit|..] == t;
  }

  lemma NumberOf(ds: string, rest: string)
    requires AllDigits(ds) && (rest == [] || !IsDigit(rest[0]))
    ensures Number(ds + rest) == (ds, rest)
  {
    DigitsOf(ds, rest);
    assert (ds + rest)[|ds|..] == rest;
  }

  // ---------------------------------------------------------------------
  // Initial stacks

  /** Stack label to crates, bottom first, last element on top. */
  type Stacks = map<string, seq<string>>

  datatype CrateError =
    | NoDrawing                 // stack_item_lines[-1] of an empty list
    | RaggedDrawing(column: nat) // item[pos] beyond a short drawing row
    | UnknownStack(name: string)
    | EmptyStack(name: string)

  function Reverse(s: seq<string>): (r: seq<string>)
    ensures |r| == |s| && forall i | 0 <= i < |s| :: r[i] == s[|s| - 1 - i]
  {
    if s == [] then [] else Reverse(s[1..]) + [s[0]]
  }

  /** Every drawing row has a cell in column `pos`. */
  predicate Covers(rows: seq<seq<string>>, pos: nat)
  {
    forall i | 0 <= i < |rows| :: pos < |rows[i]|
  }

  /** Every drawing row has cells in the first `n` columns. */
  predicate CoversUpTo(rows: seq<seq<string>>, n: nat)
  {
    forall p | 0 <= p < n :: Covers(rows, p)
  }

  /** The non-empty cells of column `pos`, top row first. */
  function ColumnItems(rows: seq<seq<string>>, pos: nat): (r: seq<string>)
    requires Covers(rows, pos)
    ensures forall i | 0 <= i < |r| :: r[i] != ""
    ensures |r| <= |rows|
  {
    if rows == [] then []
    else (if rows[0][pos] != "" then [rows[0][pos]] else []) + ColumnItems(rows[1..], pos)
  }

  /** The stack column `pos` of the drawing describes: bottom crate first. */
  function StackAt(rows: seq<seq<string>>, pos: nat): seq<string>
    requires Covers(rows, pos)
  {
    Reverse(ColumnItems(rows, pos))
  }

  /** The top of each stack is the highest crate drawn in its column. */
  lemma {:induction false} StackTop(rows: seq<seq<string>>, pos: nat, i: nat)
    requires Covers(rows, pos) && i < |rows| && rows[i][pos] != ""
    requires forall j | 0 <= j < i :: rows[j][pos] == ""
    ensures StackAt(rows, pos) != [] && StackAt(rows, pos)[|StackAt(rows, pos)| - 1] == rows[i][pos]
  {
    ColumnHead(rows, pos, i);
  }

  lemma {:induction false} ColumnHead(rows: seq<seq<string>>, pos: nat, i: nat)
    requires Covers(rows, pos) && i < |rows| && rows[i][pos] != ""
    requires forall j | 0 <= j < i :: rows[j][pos] == ""
    ensures ColumnItems(rows, pos) != [] && ColumnItems(rows, pos)[0] == rows[i][pos]
    decreases i
  {
    if i > 0 {
      ColumnHead(rows[1..], pos, i - 1);
    }
  }

  /** The dictionary after assigning the first `i` labels. */
  function Built(rows: seq<seq<string>>, labels: seq<string>, i: nat): Stacks
    requires i <= |labels| && CoversUpTo(rows, i)
  {
    if i == 0 then map[]
    else Built(rows, labels, i - 1)[labels[i - 1] := StackAt(rows, i - 1)]
  }

  /** The dictionary's key order after the first `i` labels: first insertions only. */
  function KeyOrder(labels: seq<string>, i: nat): seq<string>
    requires i <= |labels|
  {
    if i == 0 then []
    else
      var prev := KeyOrder(labels, i - 1);
      if labels[i - 1] in prev then prev else prev + [labels[i - 1]]
  }

  /** No label occurs twice. */
  predicate NoDup(s: seq<string>)
  {
    forall a, b | 0 <= a < b < |s| :: s[a] != s[b]
  }

  /** The dictionary's keys are the labels seen so far, and so are the listed keys, each once. */
  lemma {:induction false} BuiltKeys(rows: seq<seq<string>>, labels: seq<string>, i: nat)
    requires i <= |labels| && CoversUpTo(rows, i)
    ensures forall k :: k in Built(rows, labels, i) <==> k in labels[..i]
    ensures forall k :: k in KeyOrder(labels, i) <==> k in labels[..i]
    ensures NoDup(KeyOrder(labels, i))
  {
    if i > 0 {
      BuiltKeys(rows, labels, i - 1);
      assert labels[..i] == labels[..i - 1] + [labels[i - 1]];
    }
  }

  /** The dictionary holds exactly the keys its key order lists, each once. */
  lemma KeysMatch(rows: seq<seq<string>>, labels: seq<string>, i: nat)
    requires i <= |labels| && CoversUpTo(rows, i)
    ensures (forall k :: k in Built(rows, labels, i) <==> k in KeyOrder(labels, i)) && NoDup(KeyOrder(labels, i))
  {
    BuiltKeys(rows, labels, i);
  }

  /** One more column: its label is new to the dictionary exactly when it is new to the key order. */
  lemma LoadStep(rows: seq<seq<string>>, labels: seq<string>, i: nat)
    requires i < |labels| && CoversUpTo(rows, i) && Covers(rows, i)
    ensures CoversUpTo(rows, i + 1)
    ensures Built(rows, labels, i + 1) == Built(rows, labels, i)[labels[i] := Reverse(ColumnItems(rows, i))]
    ensures labels[i] in Built(rows, labels, i) <==> labels[i] in KeyOrder(labels, i)
    ensures KeyOrder(labels, i + 1) ==
      if labels[i] in KeyOrder(labels, i) then KeyOrder(labels, i) else KeyOrder(labels, i) + [labels[i]]
  {
    BuiltKeys(rows, labels, i);
  }

  /** Stack `labels[p]` holds column p, unless a later column reuses its label. */
  lemma {:induction false} BuiltAt(rows: seq<seq<string>>, labels: seq<string>, i: nat, p: nat)
    requires i <= |labels| && CoversUpTo(rows, i)
    requires p < i && forall q | p < q < i :: labels[q] != labels[p]
    ensures labels[p] in Built(rows, labels, i) && Built(rows, labels, i)[labels[p]] == StackAt(rows, p)
    decreases i
  {
    BuiltKeys(rows, labels, i);
    var prev := Built(rows, labels, i - 1);
    assert Built(rows, labels, i) == prev[labels[i - 1] := StackAt(rows, i - 1)];
    if p < i - 1 {
      BuiltAt(rows, labels, i - 1, p);
      assert labels[i - 1] != labels[p];
    }
  }

  // ---------------------------------------------------------------------
  // The two simulations, as functions of the stacks

  /** Stacks after a step, and the error that stopped it, if any. */
  datatype Outcome = Outcome(stacks: Stacks, error: Option<CrateError>)

  /** One `stacks[to].append(stacks[from].pop())`. */
  function PopPush(st: Stacks, from: string, to: string): (r: Outcome)
    ensures r.stacks.Keys == st.Keys
    ensures r.error.None? <==> to in st && from in st && st[from] != []
    ensures r.error.Some? ==> r.stacks == st
    ensures forall k | k in st && k != from && k != to :: r.stacks[k] == st[k]
    ensures r.error.None? && from != to ==>
      |r.stacks[from]| + 1 == |st[from]| && |r.stacks[to]| == |st[to]| + 1
  {
    if to !in st then Outcome(st, Some(UnknownStack(to)))
    else if from !in st then Outcome(st, Some(UnknownStack(from)))
    else if st[from] == [] then Outcome(st, Some(EmptyStack(from)))
    else
      var s := st[from];
      var popped := st[from := s[..|s| - 1]];
      Outcome(popped[to := popped[to] + [s[|s| - 1]]], None)
  }

  /** Simulation 1: `n` pop/append steps, stopping at the first error. */
  function OneAtATime(st: Stacks, from: string, to: string, n: nat): (r: Outcome)
    ensures r.stacks.Keys == st.Keys
    ensures n == 0 ==> r == Outcome(st, None)
    ensures r.error.Some? ==> r.error.value in {UnknownStack(to), UnknownStack(from), EmptyStack(from)}
    ensures forall k | k in st && k != from && k != to :: r.stacks[k] == st[k]
  {
    if n == 0 then Outcome(st, None)
    else
      var o := PopPush(st, from, to);
      if o.error.Some? then o else OneAtATime(o.stacks, from, to, n - 1)
  }

  /** The start of Python's slice `s[-n:]` (for n == 0 that is the whole list). */
  function TailStart(s: seq<string>, n: nat): (k: nat)
    ensures k <= |s|
  {
    if n == 0 || n >= |s| then 0 else |s| - n
  }

  /** Simulation 2: `stacks[to].extend(stacks[from][-n:])` then `del stacks[from][-n:]`. */
  function AsBlock(st: Stacks, from: string, to: string, n: nat): (r: Outcome)
    ensures r.stacks.Keys == st.Keys
    ensures r.error.None? <==> to in st && from in st
    ensures r.error.Some? ==> r.stacks == st
    ensures forall k | k in st && k != from && k != to :: r.stacks[k] == st[k]
  {
    if to !in st then Outcome(st, Some(UnknownStack(to)))
    else if from !in st then Outcome(st, Some(UnknownStack(from)))
    else
      var block := st[from][TailStart(st[from], n)..];
      var extended := st[to := st[to] + block];
      var s := extended[from];
      Outcome(extended[from := s[..TailStart(s, n)]], None)
  }

  /**
   * The closed form of simulation 1 between two distinct stacks: the top `n`
   * crates of `from` on top of `to` in reverse order, or, when `from` holds
   * fewer, all of them and the empty-stack error.
   */
  function Moved(st: Stacks, from: string, to: string, n: nat): Outcome
    requires from in st && to in st
  {
    var s := st[from];
    if n <= |s| then Outcome(st[from := s[..|s| - n]][to := st[to] + Reverse(s[|s| - n..])], None)
    else Outcome(st[from := []][to := st[to] + Reverse(s)], Some(EmptyStack(from)))
  }

  /**
   * One at a time, the top `n` crates of `from` land on `to` in reverse
   * order, and no other stack changes; it fails exactly when `from` runs
   * out of crates.
   */
  lemma {:induction false} OneAtATimeMoves(st: Stacks, from: string, to: string, n: nat)
    requires from in st && to in st && from != to
    ensures OneAtATime(st, from, to, n) == Moved(st, from, to, n)
    decreases n
  {
    var s := st[from];
    if n == 0 || s == [] {
      MovedNone(st, from, to, n);
    } else {
      var o := PopPush(st, from, to);
      assert o == Outcome(st[from := s[..|s| - 1]][to := st[to] + [s[|s| - 1]]], None);
      OneAtATimeMoves(o.stacks, from, to, n - 1);
      MovedStep(st, from, to, n);
      assert OneAtATime(st, from, to, n) == OneAtATime(o.stacks, from, to, n - 1);
    }
  }

  /** Nothing to move, or nothing left: the stacks stay as they are. */
  lemma MovedNone(st: Stacks, from: string, to: string, n: nat)
    requires from in st && to in st && from != to && (n == 0 || st[from] == [])
    ensures Moved(st, from, to, n) == if n == 0 then Outcome(st, None) else Outcome(st, Some(EmptyStack(from)))
  {
    var s := st[from];
    if n == 0 {
      assert s[..|s|] == s && s[|s|..] == [] && Reverse([]) == [];
      assert st[to] + [] == st[to];
      assert st[from := s][to := st[to]] == st;
    } else {
      assert Reverse(s) == [] && st[to] + [] == st[to];
      assert st[from := []] == st;
    }
  }

  /** Moving the top crate, then `n - 1` more, is moving `n`. */
  lemma MovedStep(st: Stacks, from: string, to: string, n: nat)
    requires from in st && to in st && from != to && 0 < n && st[from] != []
    ensures var s := st[from];
      Moved(st[from := s[..|s| - 1]][to := st[to] + [s[|s| - 1]]], from, to, n - 1) == Moved(st, from, to, n)
  {
    if n <= |st[from]| {
      WithinStep(st, from, to, n);
    } else {
      BeyondStep(st, from, to);
    }
  }

  lemma WithinStep(st: Stacks, from: string, to: string, n: nat)
    requires from in st && to in st && from != to && 0 < n <= |st[from]|
    ensures var s := st[from]; var s' := s[..|s| - 1];
      var o := st[from := s'][to := st[to] + [s[|s| - 1]]];
      o[from := s'[..|s'| - (n - 1)]][to := o[to] + Reverse(s'[|s'| - (n - 1)..])] ==
      st[from := s[..|s| - n]][to := st[to] + Reverse(s[|s| - n..])]
  {
    var s := st[from];
    var x := s[|s| - 1];
    var s' := s[..|s| - 1];
    var o := st[from := s'][to := st[to] + [x]];
    var tail' := s'[|s'| - (n - 1)..];
    assert s'[..|s'| - (n - 1)] == s[..|s| - n];
    assert s[|s| - n..] == tail' + [x];
    ReverseSnoc(tail', x);
    var a, b := s[..|s| - n], st[to] + Reverse(s[|s| - n..]);
    assert o[to] + Reverse(tail') == b;
    assert o[from := a][to := b] == st[from := a][to := b];
  }

  lemma BeyondStep(st: Stacks, from: string, to: string)
    requires from in st && to in st && from != to && st[from] != []
    ensures var s := st[from]; var s' := s[..|s| - 1];
      var o := st[from := s'][to := st[to] + [s[|s| - 1]]];
      o[from := []][to := o[to] + Reverse(s')] == st[from := []][to := st[to] + Reverse(s)]
  {
    var s := st[from];
    var x := s[|s| - 1];
    var s' := s[..|s| - 1];
    var o := st[from := s'][to := st[to] + [x]];
    assert s == s' + [x];
    ReverseSnoc(s', x);
    var b := st[to] + Reverse(s);
    assert o[to] + Reverse(s') == b;
    assert o[from := []][to := b] == st[from := []][to := b];
  }

  lemma {:induction false} ReverseSnoc(s: seq<string>, x: string)
    ensures Reverse(s + [x]) == [x] + Reverse(s)
  {
  }

  /** Simulation 1 with `from == to`: each crate goes straight back. */
  lemma {:induction false} OneAtATimeSelf(st: Stacks, from: string, n: nat)
    requires from in st
    ensures OneAtATime(st, from, from, n) ==
      if n > 0 && st[from] == [] then Outcome(st, Some(EmptyStack(from))) else Outcome(st, None)
    decreases n
  {
    if n > 0 && st[from] != [] {
      var s := st[from];
      assert s[..|s| - 1] + [s[|s| - 1]] == s;
      assert PopPush(st, from, from).stacks == st;
      OneAtATimeSelf(st, from, n - 1);
    }
  }

  /** Simulation 1 fails at once when a named stack does not exist. */
  lemma OneAtATimeUnknown(st: Stacks, from: string, to: string, n: nat)
    requires n > 0 && (from !in st || to !in st)
    ensures OneAtATime(st, from, to, n) ==
      Outcome(st, Some(UnknownStack(if to !in st then to else from)))
  {
  }

  /**
   * As a block, the top `n` crates of `from` keep their order on `to`; with
   * `n == 0` the slice `[-0:]` is the whole stack, so all of it moves.
   */
  lemma AsBlockMoves(st: Stacks, from: string, to: string, n: nat)
    requires from in st && to in st && from != to
    ensures var s := st[from]; var k := TailStart(s, n);
      AsBlock(st, from, to, n) == Outcome(st[from := s[..k]][to := st[to] + s[k..]], None)
    ensures n == 0 ==> AsBlock(st, from, to, n).stacks[to] == st[to] + st[from]
    ensures n == 0 ==> AsBlock(st, from, to, n).stacks[from] == []
  {
    var s := st[from];
    var ext := st[to := st[to] + s[TailStart(s, n)..]];
    assert ext[from] == s;
  }

  /**
   * Simulation 2 with `from == to`: the block is appended to its own stack
   * and then the last `n` crates are cut off that longer stack; so for
   * `n <= |s|` the stack is as before, for `|s| < n < 2|s|` only its first
   * `2|s| - n` crates stay, and `n == 0` or `n >= 2|s|` empties it.
   */
  lemma AsBlockSelf(st: Stacks, from: string, n: nat)
    requires from in st
    ensures var s := st[from];
      AsBlock(st, from, from, n) ==
        Outcome(st[from := if n == 0 || n >= 2 * |s| then [] else if n <= |s| then s else s[..2 * |s| - n]], None)
  {
    var s := st[from];
    var k := TailStart(s, n);
    var t := s + s[k..];
    assert AsBlock(st, from, from, n) == Outcome(st[from := t[..TailStart(t, n)]], None);
    if 0 < n <= |s| {
      assert TailStart(t, n) == |s|;
      assert t[..|s|] == s;
    } else if |s| < n < 2 * |s| {
      assert k == 0 && TailStart(t, n) == 2 * |s| - n;
      assert t[..2 * |s| - n] == s[..2 * |s| - n];
    }
  }

  /** Simulation 1 keeps the crates of the two stacks involved, and every other stack. */
  lemma OneAtATimeConserves(st: Stacks, from: string, to: string, n: nat)
    requires from in st && to in st && from != to
    ensures var o := OneAtATime(st, from, to, n).stacks;
      multiset(o[from]) + multiset(o[to]) == multiset(st[from]) + multiset(st[to])
    ensures var o := OneAtATime(st, from, to, n).stacks;
      forall k | k in st && k != from && k != to :: o[k] == st[k]
  {
    OneAtATimeMoves(st, from, to, n);
    MovedConserves(st, from, to, n);
  }

  lemma MovedConserves(st: Stacks, from: string, to: string, n: nat)
    requires from in st && to in st && from != to
    ensures var o := Moved(st, from, to, n).stacks;
      multiset(o[from]) + multiset(o[to]) == multiset(st[from]) + multiset(st[to])
    ensures var o := Moved(st, from, to, n).stacks;
      forall k | k in st && k != from && k != to :: o[k] == st[k]
  {
    var s := st[from];
    if n <= |s| {
      var tail := s[|s| - n..];
      ReverseMultiset(tail);
      assert s == s[..|s| - n] + tail;
      BlockConserves(st, from, to, s[..|s| - n], Reverse(tail), tail);
    } else {
      ReverseMultiset(s);
      assert s == [] + s;
      BlockConserves(st, from, to, [], Reverse(s), s);
    }
  }

  /** Leaving `rest` on `from` and putting `put`, a rearrangement of `moved`, on `to`, where `from` held `rest + moved`. */
  lemma BlockConserves(st: Stacks, from: string, to: string, rest: seq<string>, put: seq<string>, moved: seq<string>)
    requires from in st && to in st && from != to
    requires st[from] == rest + moved && multiset(put) == multiset(moved)
    ensures var o := st[from := rest][to := st[to] + put];
      multiset(o[from]) + multiset(o[to]) == multiset(st[from]) + multiset(st[to])
    ensures var o := st[from := rest][to := st[to] + put];
      forall k | k in st && k != from && k != to :: o[k] == st[k]
  {
  }

  /** So does simulation 2, for any `n`. */
  lemma {:induction false} AsBlockConserves(st: Stacks, from: string, to: string, n: nat)
    requires from in st && to in st && from != to
    ensures var o := AsBlock(st, from, to, n).stacks;
      multiset(o[from]) + multiset(o[to]) == multiset(st[from]) + multiset(st[to])
    ensures var o := AsBlock(st, from, to, n).stacks;
      forall k | k in st && k != from && k != to :: o[k] == st[k]
  {
    var s := st[from];
    AsBlockMoves(st, from, to, n);
    var k := TailStart(s, n);
    assert s == s[..k] + s[k..];
  }

  lemma {:induction false} ReverseMultiset(s: seq<string>)
    ensures multiset(Reverse(s)) == multiset(s)
  {
    if s != [] {
      ReverseMultiset(s[1..]);
      assert s == [s[0]] + s[1..];
    }
  }

  /** For 1 <= n <= |from|, simulation 1 puts down exactly the reverse of simulation 2's block. */
  lemma OneAtATimeReversesBlock(st: Stacks, from: string, to: string, n: nat)
    requires from in st && to in st && from != to && 1 <= n <= |st[from]|
    ensures OneAtATime(st, from, to, n).stacks[from] == AsBlock(st, from, to, n).stacks[from]
    ensures OneAtATime(st, from, to, n).stacks[to] ==
      st[to] + Reverse(AsBlock(st, from, to, n).stacks[to][|st[to]|..])
  {
    var s := st[from];
    OneAtATimeMoves(st, from, to, n);
    AsBlockMoves(st, from, to, n);
    assert (st[to] + s[|s| - n..])[|st[to]|..] == s[|s| - n..];
  }

  // ---------------------------------------------------------------------
  // Tops of the stacks

  /** `"".join([stacks[k][-1] for k in stacks])`, None when a stack is empty. */
  function Tops(st: Stacks, order: seq<string>): (r: Option<string>)
    requires forall i | 0 <= i < |order| :: order[i] in st
    ensures r.Some? <==> forall i | 0 <= i < |order| :: st[order[i]] != []
  {
    if order == [] then Some("")
    else
      var s := st[order[0]];
      var rest := Tops(st, order[1..]);
      if s == [] then None
      else if rest.None? then
        assert exists i | 0 <= i < |order| :: st[order[i]] == [] by {
          var j :| 0 <= j < |order[1..]| && st[order[1..][j]] == [];
          assert order[j + 1] == order[1..][j];
        }
        None
      else
        Some(s[|s| - 1] + rest.value)
  }

  /** With one-letter crates, the answer spells each stack's top crate in key order. */
  lemma {:induction false} TopsSpell(st: Stacks, order: seq<string>)
    requires forall i | 0 <= i < |order| :: order[i] in st && st[order[i]] != []
    requires forall i | 0 <= i < |order| :: |st[order[i]][|st[order[i]]| - 1]| == 1
    ensures Tops(st, order).Some? && |Tops(st, order).value| == |order|
    ensures forall i | 0 <= i < |order| :: Tops(st, order).value[i] == st[order[i]][|st[order[i]]| - 1][0]
  {
    if order != [] {
      TopsSpell(st, order[1..]);
      var s := st[order[0]];
      var t := Tops(st, order[1..]).value;
      assert Tops(st, order).value == s[|s| - 1] + t;
      forall i | 1 <= i < |order|
        ensures Tops(st, order).value[i] == st[order[i]][|st[order[i]]| - 1][0]
      {
        assert order[i] == order[1..][i - 1];
      }
    }
  }

  // ---------------------------------------------------------------------
  // The module state

  /** `stacks_sim1`, `stacks_sim2` and their (shared) key insertion order. */
  class Dock {
    var sim1: Stacks
    var sim2: Stacks
    var order: seq<string>

    /** Both dictionaries have exactly the keys of `order`, each once. */
    ghost predicate Valid()
      reads this
    {
      (forall k :: k in sim1 <==> k in order) && sim2.Keys == sim1.Keys && NoDup(order)
    }

    constructor()
      ensures Valid() && sim1 == map[] && sim2 == map[] && order == []
    {
      sim1 := map[];
      sim2 := map[];
      order := [];
    }

    /**
     * Creates the initial stacks from the drawing: the last row labels the
     * stacks, the others hold the crates.  Both simulations get the same
     * stacks.
     */
    method Load(itemLines: seq<seq<string>>) returns (r: Option<CrateError>)
      requires sim1 == map[] && sim2 == map[] && order == []
      modifies this
      ensures Valid()
      ensures itemLines == [] <==> r == Some(NoDrawing)
      ensures r.None? ==> var rows, labels := itemLines[..|itemLines| - 1], itemLines[|itemLines| - 1];
        CoversUpTo(rows, |labels|) &&
        sim1 == sim2 == Built(rows, labels, |labels|) && order == KeyOrder(labels, |labels|)
      ensures r.Some? && r.value.RaggedDrawing? ==>
        (itemLines != [] &&
         var rows, labels, i := itemLines[..|itemLines| - 1], itemLines[|itemLines| - 1], r.value.column;
         i < |labels| && !Covers(rows, i) && CoversUpTo(rows, i) &&
         sim1 == sim2 == Built(rows, labels, i) && order == KeyOrder(labels, i))
      ensures r.None? || r == Some(NoDrawing) || r.value.RaggedDrawing?
    {
      if itemLines == [] {
        return Some(NoDrawing);
      }
      var rows, labels := itemLines[..|itemLines| - 1], itemLines[|itemLines| - 1];
      r := LoadColumns(rows, labels);
      KeysMatch(rows, labels, if r.None? then |labels| else r.value.column);
    }

    /** One stack per label of `labels`, built from the crate rows `rows`. */
    method LoadColumns(rows: seq<seq<string>>, labels: seq<string>) returns (r: Option<CrateError>)
      requires sim1 == map[] && sim2 == map[] && order == []
      modifies this
      ensures r.None? ==>
        CoversUpTo(rows, |labels|) &&
        sim1 == sim2 == Built(rows, labels, |labels|) && order == KeyOrder(labels, |labels|)
      ensures r.Some? ==>
        (r.value.RaggedDrawing? &&
         var i := r.value.column;
         i < |labels| && !Covers(rows, i) && CoversUpTo(rows, i) &&
         sim1 == sim2 == Built(rows, labels, i) && order == KeyOrder(labels, i))
    {
      var pos := 0;
      while pos < |labels|
        invariant 0 <= pos <= |labels|
        invariant CoversUpTo(rows, pos)
        invariant sim1 == sim2 == Built(rows, labels, pos) && order == KeyOrder(labels, pos)
      {
        var stack := labels[pos];
        if !Covers(rows, pos) {
          return Some(RaggedDrawing(pos));
        }
        var column := ColumnItems(rows, pos);
        var items := Reverse(column);
        LoadStep(rows, labels, pos);
        if stack !in sim1 {
          order := order + [stack];
        }
        sim1 := sim1[stack := items];
        sim2 := sim2[stack := items];
        pos := pos + 1;
      }
      r := None;
    }

    /** Simulation 1 for one movement: `n` single-crate moves. */
    method MoveOneAtATime(from: string, to: string, n: nat) returns (r: Option<CrateError>)
      modifies this`sim1
      ensures Outcome(sim1, r) == OneAtATime(old(sim1), from, to, n)
    {
      var remaining := n;
      while remaining > 0
        invariant OneAtATime(sim1, from, to, remaining) == OneAtATime(old(sim1), from, to, n)
      {
        r := PopAppend(from, to);
        if r.Some? {
          return;
        }
        remaining := remaining - 1;
      }
      r := None;
    }

    /** `crate = stacks_sim1[from].pop()` then `stacks_sim1[to].append(crate)`. */
    method PopAppend(from: string, to: string) returns (r: Option<CrateError>)
      modifies this`sim1
      ensures Outcome(sim1, r) == PopPush(old(sim1), from, to)
    {
      if to !in sim1 {
        return Some(UnknownStack(to));
      }
      if from !in sim1 {
        return Some(UnknownStack(from));
      }
      var s := sim1[from];
      if s == [] {
        return Some(EmptyStack(from));
      }
      var crate := s[|s| - 1];
      sim1 := sim1[from := s[..|s| - 1]];
      sim1 := sim1[to := sim1[to] + [crate]];
      r := None;
    }

    /** Simulation 2 for one movement: the top `n` crates as one block. */
    method MoveAsBlock(from: string, to: string, n: nat) returns (r: Option<CrateError>)
      modifies this`sim2
      ensures Outcome(sim2, r) == AsBlock(old(sim2), from, to, n)
    {
      if to !in sim2 {
        return Some(UnknownStack(to));
      }
      if from !in sim2 {
        return Some(UnknownStack(from));
      }
      sim2 := sim2[to := sim2[to] + sim2[from][TailStart(sim2[from], n)..]];
      sim2 := sim2[from := sim2[from][..TailStart(sim2[from], n)]];
      r := None;
    }

    /** Both simulations for each movement in turn, stopping at the first error. */
    method Perform(movements: seq<Movement>) returns (r: Option<CrateError>)
      requires Valid()
      modifies this`sim1, this`sim2
      ensures Valid()
      ensures (sim1, sim2, r) == Run(old(sim1), old(sim2), movements)
    {
      var i := 0;
      while i < |movements|
        invariant 0 <= i <= |movements| && Valid()
        invariant Run(sim1, sim2, movements[i..]) == Run(old(sim1), old(sim2), movements)
      {
        var m := movements[i];
        assert movements[i..][1..] == movements[i + 1..];
        r := MoveOneAtATime(m.from, m.to, m.total);
        if r.Some? {
          return;
        }
        r := MoveAsBlock(m.from, m.to, m.total);
        if r.Some? {
          return;
        }
        i := i + 1;
      }
      r := None;
    }

    /**
     * The two reported answers: the top crates of simulation 1, then those
     * of simulation 2; an empty stack in simulation 1 raises before the
     * second answer is computed.
     */
    function Answers(): (r: (Option<string>, Option<string>))
      requires Valid()
      reads this
      ensures r.0.Some? <==> forall i | 0 <= i < |order| :: sim1[order[i]] != []
      ensures r.1.Some? <==> r.0.Some? && forall i | 0 <= i < |order| :: sim2[order[i]] != []
    {
      var first := Tops(sim1, order);
      (first, if first.None? then None else Tops(sim2, order))
    }
  }

  /** Both simulations over all movements; simulation 1 goes first in each. */
  function Run(s1: Stacks, s2: Stacks, movements: seq<Movement>): (r: (Stacks, Stacks, Option<CrateError>))
    ensures r.0.Keys == s1.Keys && r.1.Keys == s2.Keys
  {
    if movements == [] then (s1, s2, None)
    else
      var m := movements[0];
      var o1 := OneAtATime(s1, m.from, m.to, m.total);
      if o1.error.Some? then (o1.stacks, s2, o1.error)
      else
        var o2 := AsBlock(s2, m.from, m.to, m.total);
        if o2.error.Some? then (o1.stacks, o2.stacks, o2.error)
        else Run(o1.stacks, o2.stacks, movements[1..])
  }
}
