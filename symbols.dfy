/** The symbol table: an insertion-ordered doubly linked list of user
    symbols, plus a fixed table of built-in names (the index registers and
    the program counter). */
module Symbols {
  import opened Lexer
  import opened Errors

  /** One list cell.  prev and next are the links, given as positions in
      `entries`; symbol_name, name_length and value are the payload. */
  datatype Entry = Entry(prev: Option<nat>, next: Option<nat>, name: string, nameLength: int, value: int)

  /** strncmp(a, b, strlen(a)) == 0 for NUL-free strings: a is a prefix of b. */
  predicate IsPrefix(a: string, b: string)
  {
    |a| <= |b| && b[..|a|] == a
  }

  /** The cell at position i is linked to its neighbours in insertion order. */
  predicate Linked(es: seq<Entry>, i: nat)
    requires i < |es|
  {
    es[i].prev == (if i == 0 then None else Some(i - 1)) &&
    es[i].next == (if i + 1 == |es| then None else Some(i + 1))
  }

  /** The first entry at or after i whose name begins with arg. */
  function FindPrefix(es: seq<Entry>, arg: string, i: nat): (r: Option<nat>)
    ensures r.Some? ==> i <= r.value < |es| && IsPrefix(arg, es[r.value].name)
    ensures r.Some? ==> forall k :: i <= k < r.value ==> !IsPrefix(arg, es[k].name)
    ensures r.None? ==> forall k :: i <= k < |es| ==> !IsPrefix(arg, es[k].name)
    decreases |es| - i
  {
    if i >= |es| then None
    else if IsPrefix(arg, es[i].name) then Some(i)
    else FindPrefix(es, arg, i + 1)
  }

  /** Symbol-table lookup by the argument at the cursor. */
  function Lookup(es: seq<Entry>, s: string, pos: nat): Option<nat>
  {
    FindPrefix(es, Arg(s, pos), 0)
  }

  /** The list after a new cell for name is linked in at the tail: the old
      last cell's next points to it, its prev points back, its next is NULL. */
  function Append(es: seq<Entry>, name: string, nameLength: int, value: int): (r: seq<Entry>)
    ensures |r| == |es| + 1
    ensures r[|es|] == Entry(if es == [] then None else Some(|es| - 1), None, name, nameLength, value)
    ensures forall i :: 0 <= i < |es| ==>
      r[i].name == es[i].name && r[i].nameLength == es[i].nameLength && r[i].value == es[i].value
  {
    var n := |es|;
    var cell := Entry(if n == 0 then None else Some(n - 1), None, name, nameLength, value);
    if n == 0 then [cell] else es[n - 1 := es[n - 1].(next := Some(n))] + [cell]
  }

  /** Appending keeps every cell linked to its neighbours. */
  lemma AppendKeepsLinks(es: seq<Entry>, name: string, nameLength: int, value: int)
    requires forall i :: 0 <= i < |es| ==> Linked(es, i)
    ensures var r := Append(es, name, nameLength, value);
      forall i :: 0 <= i < |r| ==> Linked(r, i)
  {
    var r := Append(es, name, nameLength, value);
    forall i | 0 <= i < |r|
      ensures Linked(r, i)
    {
      if i < |es| {
        assert Linked(es, i);
      }
    }
  }

  class SymbolTable {
    var first: Option<nat>
    var last: Option<nat>
    var numSymbols: int
    var entries: seq<Entry>

    ghost predicate Valid()
      reads this
    {
      numSymbols == |entries| &&
      first == (if entries == [] then None else Some(0)) &&
      last == (if entries == [] then None else Some(|entries| - 1)) &&
      (forall i :: 0 <= i < |entries| ==> Linked(entries, i)) &&
      (forall i :: 0 <= i < |entries| ==> entries[i].nameLength >= 1)
    }

    /** sym_init: no first or last entry and a count of zero. */
    constructor Init()
      ensures Valid()
      ensures first == None && last == None && numSymbols == 0 && entries == []
    {
      first, last, numSymbols, entries := None, None, 0, [];
    }

    /** sym_look_for_symbol: walk num_symbols cells from the first, return the
        first whose name begins with the argument at the cursor, and move the
        cursor on by that entry's name_length.  On a miss the cursor stays. */
    method LookFor(s: string, pos: nat) returns (r: Option<nat>, newPos: nat)
      requires Valid()
      ensures r == Lookup(entries, s, pos)
      ensures r.Some? ==> newPos == pos + entries[r.value].nameLength
      ensures r.None? ==> newPos == pos
    {
      var symbol, _ := GetArg(s, pos);
      var se := first;
      var cnt := numSymbols;
      while cnt > 0
        invariant 0 <= cnt <= numSymbols
        invariant cnt > 0 ==> se == Some(numSymbols - cnt)
        invariant FindPrefix(entries, symbol, 0) == FindPrefix(entries, symbol, numSymbols - cnt)
      {
        var i := se.value;
        if IsPrefix(symbol, entries[i].name) {
          return se, pos + entries[i].nameLength;
        }
        assert Linked(entries, i);
        se := entries[i].next;
        cnt := cnt - 1;
      }
      return None, pos;
    }

    /** sym_new_symbol followed by the field writes read_and_store_label makes:
        refused (None) when lookup already finds the name; otherwise the cell
        is linked in at the tail and the count rises by one. */
    method NewSymbol(name: string, nameLength: int, value: int) returns (r: Option<nat>)
      requires Valid() && nameLength >= 1
      modifies this
      ensures Valid()
      ensures r.None? <==> Lookup(old(entries), name, 0).Some?
      ensures r.None? ==> entries == old(entries) && first == old(first)
      ensures r.Some? ==> r.value == old(numSymbols) && numSymbols == old(numSymbols) + 1
      ensures r.Some? ==> entries == Append(old(entries), name, nameLength, value)
      ensures r.Some? ==> entries[r.value] == Entry(old(last), None, name, nameLength, value)
      ensures r.Some? ==> old(last).Some? ==> entries[old(last).value].next == r
      ensures r.Some? ==> old(first).Some? ==> first == old(first)
      ensures r.Some? ==> last == r
      ensures r.Some? ==> forall i :: 0 <= i < |old(entries)| ==>
        entries[i].name == old(entries)[i].name && entries[i].value == old(entries)[i].value
    {
      var found, _ := LookFor(name, 0);
      if found.Some? {
        return None;
      }
      var n := numSymbols;
      var se := Entry(last, None, name, nameLength, value);
      AppendKeepsLinks(entries, name, nameLength, value);
      if n == 0 {
        first := Some(0);
        last := Some(0);
        entries := [se];
      } else {
        var oldLast := last.value;
        entries := entries[oldLast := entries[oldLast].(next := Some(n))] + [se];
        last := Some(n);
      }
      numSymbols := n + 1;
      r := Some(n);
      assert entries == Append(old(entries), name, nameLength, value);
    }

    /** The write process_line makes through the entry pointer after an
        assignment. */
    method SetValue(i: nat, v: int)
      requires Valid() && i < |entries|
      modifies this
      ensures Valid()
      ensures entries == old(entries)[i := old(entries)[i].(value := v)]
      ensures first == old(first) && last == old(last) && numSymbols == old(numSymbols)
    {
      entries := entries[i := entries[i].(value := v)];
      assert forall k :: 0 <= k < |entries| ==> Linked(old(entries), k) ==> Linked(entries, k);
    }

    /** sym_next_symbol: the successor, or None for the last entry. */
    function NextSymbol(i: nat): (r: Option<nat>)
      reads this
      requires Valid() && i < |entries|
      ensures r.Some? <==> i + 1 < |entries|
      ensures r.Some? ==> r.value == i + 1
    {
      assert Linked(entries, i);
      entries[i].next
    }

    /** sym_clean_up: follows the links through exactly num_symbols cells and
        reports SYM_OK (0). */
    method CleanUp() returns (result: int, visited: nat)
      requires Valid()
      ensures result == 0
      ensures visited == numSymbols
    {
      var se := first;
      var cnt := numSymbols;
      visited := 0;
      while cnt > 0
        invariant 0 <= cnt <= numSymbols
        invariant visited == numSymbols - cnt
        invariant cnt > 0 ==> se == Some(visited)
      {
        se := NextSymbol(se.value);
        visited := visited + 1;
        cnt := cnt - 1;
      }
      result := 0;
    }
  }

  // sym_read_name

  /** Label characters from j on, at most n of them. */
  function LabelRun(s: string, j: nat, n: nat): (r: string)
    ensures |r| <= n
    ensures forall k :: 0 <= k < |r| ==> r[k] == At(s, j + k) && IsValidLabel(r[k])
    ensures |r| < n ==> !IsValidLabel(At(s, j + |r|))
    decreases n
  {
    if n == 0 || !IsValidLabel(At(s, j)) then [] else [At(s, j)] + LabelRun(s, j + 1, n - 1)
  }

  /** The name sym_read_name copies: the first character unconditionally,
      then at most 254 label characters. */
  function ReadNameText(s: string, i: nat): (name: string)
    ensures 1 <= |name| <= 255 && name[0] == At(s, i)
    ensures forall k :: 1 <= k < |name| ==> IsValidLabel(name[k]) && name[k] == At(s, i + k)
  {
    [At(s, i)] + LabelRun(s, i + 1, 254)
  }

  /** sym_read_name: copies the name and returns the cursor after it. */
  method ReadName(s: string, i: nat) returns (name: string, stop: nat)
    ensures name == ReadNameText(s, i)
    ensures stop == i + |name|
  {
    name := [At(s, i)];
    stop := i + 1;
    var count := 1;
    while IsValidLabel(At(s, stop)) && count < 255
      invariant 1 <= count <= 255 && stop == i + count && |name| == count
      invariant name + LabelRun(s, stop, 255 - count) == ReadNameText(s, i)
      decreases 255 - count
    {
      var c := At(s, stop);
      assert LabelRun(s, stop, 255 - count) == [c] + LabelRun(s, stop + 1, 255 - count - 1);
      assert name + LabelRun(s, stop, 255 - count) == (name + [c]) + LabelRun(s, stop + 1, 255 - count - 1);
      name := name + [c];
      stop := stop + 1;
      count := count + 1;
    }
  }

  // Built-in symbols

  datatype Getter = GetX | GetY | GetPC

  datatype BuiltIn = BuiltIn(name: string, getter: Getter)

  /** Scanned in this order; the first name that begins the argument wins. */
  const BuiltIns: seq<BuiltIn> :=
    [BuiltIn("X", GetX), BuiltIn("x", GetX), BuiltIn("Y", GetY), BuiltIn("y", GetY),
     BuiltIn("*", GetPC), BuiltIn("PC", GetPC), BuiltIn("pc", GetPC)]

  const BuiltInX: int := 1
  const BuiltInY: int := 2

  /** bis_getx, bis_gety and bis_getpc: a register tag, or the PC at the
      moment of the call. */
  function BuiltInValue(g: Getter, pc: int): (v: int)
    ensures g == GetX ==> v == BuiltInX
    ensures g == GetY ==> v == BuiltInY
    ensures g == GetPC ==> v == pc
  {
    match g
    case GetX => BuiltInX
    case GetY => BuiltInY
    case GetPC => pc
  }

  /** The first built-in at or after k whose name begins arg. */
  function FindBuiltIn(arg: string, k: nat): (r: Option<nat>)
    ensures r.Some? ==> k <= r.value < |BuiltIns| && IsPrefix(BuiltIns[r.value].name, arg)
    ensures r.Some? ==> forall j :: k <= j < r.value ==> !IsPrefix(BuiltIns[j].name, arg)
    ensures r.None? ==> forall j :: k <= j < |BuiltIns| ==> !IsPrefix(BuiltIns[j].name, arg)
    decreases |BuiltIns| - k
  {
    if k >= |BuiltIns| then None
    else if IsPrefix(BuiltIns[k].name, arg) then Some(k)
    else FindBuiltIn(arg, k + 1)
  }

  /** check_built_in_symbol: the cursor moves to the end of the argument.
      The table ends in a { NULL, NULL } sentinel and the scan tests the
      first character of each name, so when no name matches, the scan
      dereferences the sentinel's NULL name and the process crashes: the
      function never returns NULL. */
  method CheckBuiltIn(s: string, pos: nat) returns (r: Res<nat>, stop: nat)
    ensures FindBuiltIn(Arg(s, pos), 0).Some? ==> r == Ok(FindBuiltIn(Arg(s, pos), 0).value)
    ensures FindBuiltIn(Arg(s, pos), 0).None? ==> r == Abort(NullBuiltInName)
    ensures stop == ArgStop(s, pos)
  {
    var symbol;
    symbol, stop := GetArg(s, pos);
    var k := 0;
    while k < |BuiltIns|
      invariant 0 <= k <= |BuiltIns|
      invariant FindBuiltIn(symbol, 0) == FindBuiltIn(symbol, k)
    {
      if IsPrefix(BuiltIns[k].name, symbol) {
        return Ok(k), stop;
      }
      k := k + 1;
    }
    r := Abort(NullBuiltInName);
  }

  /** The value the built-in check yields for arg, if it finds one. */
  function BuiltInFor(arg: string, pc: int): Option<int>
  {
    match FindBuiltIn(arg, 0)
    case None => None
    case Some(k) => Some(BuiltInValue(BuiltIns[k].getter, pc))
  }

  /** An argument starting with X or x names register X. */
  lemma BuiltInNamesX(arg: string, pc: int)
    requires |arg| >= 1 && arg[0] in {'X', 'x'}
    ensures BuiltInFor(arg, pc) == Some(BuiltInX)
  {
    if arg[0] == 'X' {
      assert IsPrefix(BuiltIns[0].name, arg);
    } else {
      assert IsPrefix(BuiltIns[1].name, arg);
    }
  }

  /** An argument starting with Y or y names register Y. */
  lemma BuiltInNamesY(arg: string, pc: int)
    requires |arg| >= 1 && arg[0] in {'Y', 'y'}
    ensures BuiltInFor(arg, pc) == Some(BuiltInY)
  {
    assert !IsPrefix(BuiltIns[0].name, arg) && !IsPrefix(BuiltIns[1].name, arg);
    if arg[0] == 'Y' {
      assert IsPrefix(BuiltIns[2].name, arg);
    } else {
      assert IsPrefix(BuiltIns[3].name, arg);
    }
  }

  /** An argument starting with *, PC or pc names the program counter. */
  lemma BuiltInNamesPC(arg: string, pc: int)
    requires (|arg| >= 1 && arg[0] == '*') || (|arg| >= 2 && arg[..2] in {"PC", "pc"})
    ensures BuiltInFor(arg, pc) == Some(pc)
  {
    assert forall k :: 0 <= k < 4 ==> BuiltIns[k].name[0] != arg[0];
    if arg[0] == '*' {
      assert IsPrefix(BuiltIns[4].name, arg);
    } else if arg[..2] == "PC" {
      assert !IsPrefix(BuiltIns[4].name, arg);
      assert IsPrefix(BuiltIns[5].name, arg);
    } else {
      assert !IsPrefix(BuiltIns[4].name, arg) && !IsPrefix(BuiltIns[5].name, arg);
      assert IsPrefix(BuiltIns[6].name, arg);
    }
  }

  /** Nothing else is a built-in. */
  lemma BuiltInNamesOnly(arg: string)
    requires FindBuiltIn(arg, 0).Some?
    ensures |arg| >= 1 && (arg[0] in {'X', 'x', 'Y', 'y', '*'} || (|arg| >= 2 && arg[..2] in {"PC", "pc"}))
  {
    var k := FindBuiltIn(arg, 0).value;
    assert IsPrefix(BuiltIns[k].name, arg);
    assert k <= 4 ==> arg[0] == BuiltIns[k].name[0];
    assert k > 4 ==> arg[..2] == BuiltIns[k].name;
  }
}
