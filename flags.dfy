/** The part of Go's `flag` package that commando relies on: string
    variables bound to flag names, and the effect of parsing on them. How
    the command line is tokenised is outside the model; parsing is taken
    to yield the flags the user set, in order, each with its value.

    A `*string` is an address in a `Memory` of string cells, so that two
    flag names writing through the same pointer, as the short and long form
    of one option do, share one cell. */
module Flags {

  /** The string cells that `new(string)` allocates. */
  class Memory {
    var cells: seq<string>

    constructor ()
      ensures cells == []
    {
      cells := [];
    }

    /** `new(string)`: a fresh cell, holding the empty string, at the next
        address. */
    method New() returns (p: nat)
      modifies this
      ensures p == |old(cells)| && cells == old(cells) + [""]
    {
      p := |cells|;
      cells := cells + [""];
    }
  }

  /** A Go pointer field: nil, or the address of a cell. */
  datatype Pointer = Nil | Addr(addr: nat)

  /** The text a boolean variable holds in a cell: Go's `strconv.FormatBool`. */
  function BoolText(b: bool): (t: string)
    ensures t == "true" <==> b
    ensures t == "false" <==> !b
  {
    if b then "true" else "false"
  }

  /** One flag the user set on the command line, with its value. */
  datatype Assignment = Assignment(flag: string, value: string)

  /** The value a variable bound to the flag names `names` holds after the
      assignments `input`, when it held `init` before: the value of the last
      assignment to one of those names, or `init` when there is none. */
  function FinalValue(input: seq<Assignment>, names: set<string>, init: string): string
  {
    if input == [] then init
    else if input[|input| - 1].flag in names then input[|input| - 1].value
    else FinalValue(input[..|input| - 1], names, init)
  }

  /** There is an assignment to one of `names` in `input`. */
  predicate Supplied(input: seq<Assignment>, names: set<string>)
  {
    exists j :: 0 <= j < |input| && input[j].flag in names
  }

  /** Without an assignment to one of its names, a variable keeps its value;
      otherwise it holds the value of the LAST such assignment. */
  lemma {:induction false} FinalValueCases(input: seq<Assignment>, names: set<string>, init: string)
    ensures !Supplied(input, names) ==> FinalValue(input, names, init) == init
    ensures Supplied(input, names) ==>
              exists j :: && 0 <= j < |input| && input[j].flag in names
                          && FinalValue(input, names, init) == input[j].value
                          && forall m :: j < m < |input| ==> input[m].flag !in names
  {
    if input != [] {
      var last := |input| - 1;
      var front := input[..last];
      FinalValueCases(front, names, init);
      if input[last].flag !in names {
        if Supplied(input, names) {
          var j :| 0 <= j < |input| && input[j].flag in names;
          assert front[j].flag in names;
          var i :| && 0 <= i < |front| && front[i].flag in names
                   && FinalValue(front, names, init) == front[i].value
                   && forall m :: i < m < |front| ==> front[m].flag !in names;
          assert input[i] == front[i];
        } else {
          assert !Supplied(front, names) by {
            forall j | 0 <= j < |front|
              ensures front[j].flag !in names
            {
              assert front[j] == input[j];
            }
          }
        }
      }
    }
  }

  /** Assignments to other names do not matter. */
  lemma {:induction false} FinalValueIgnoresOthers(input: seq<Assignment>, a: Assignment, names: set<string>, init: string)
    requires a.flag !in names
    ensures FinalValue(input + [a], names, init) == FinalValue(input, names, init)
  {
    assert (input + [a])[..|input|] == input;
  }

  /** The names a flag table binds to the cell at address `p`. */
  function NamesIn(table: map<string, nat>, p: nat): (names: set<string>)
    ensures forall n :: n in names <==> n in table && table[n] == p
  {
    set n | n in table && table[n] == p
  }

  /** Every assignment in `input` is to a flag `table` defines. */
  predicate AllDefined(input: seq<Assignment>, table: map<string, nat>)
  {
    forall j :: 0 <= j < |input| ==> input[j].flag in table
  }

  /** `after` is `cells` once the assignments `input` are written through
      the flag table `table`: each cell holds the last value given to one
      of its names, or its old content when none is given. */
  predicate WrittenThrough(after: seq<string>, cells: seq<string>, input: seq<Assignment>, table: map<string, nat>)
  {
    && |after| == |cells|
    && forall p :: 0 <= p < |after| ==> after[p] == FinalValue(input, NamesIn(table, p), cells[p])
  }

  /** The defined flags of a flag set (`formal` in Go's `FlagSet`), each
      with the address of the variable it writes. */
  class FlagSet {
    var formal: map<string, nat>

    /** Every defined flag writes an allocated cell. */
    predicate Valid(mem: Memory)
      reads this, mem
    {
      forall n :: n in formal ==> formal[n] < |mem.cells|
    }

    /** An empty flag set. */
    constructor ()
      ensures formal == map[]
    {
      formal := map[];
    }

    /** `StringVar`: defines flag `name`, writing `value` through `p` as its
        default. Go's flag package panics when `name` is already defined,
        so callers must not define a name twice. */
    method StringVar(mem: Memory, p: nat, name: string, value: string)
      requires name !in formal && p < |mem.cells|
      modifies this, mem
      ensures formal == old(formal)[name := p]
      ensures mem.cells == old(mem.cells)[p := value]
    {
      mem.cells := mem.cells[p := value];
      formal := formal[name := p];
    }

    /** `BoolVar`: defines flag `name`, writing `value` through `p` as its
        default; like `StringVar`, it panics in Go on a name already
        defined. */
    method BoolVar(mem: Memory, p: nat, name: string, value: bool)
      requires name !in formal && p < |mem.cells|
      modifies this, mem
      ensures formal == old(formal)[name := p]
      ensures mem.cells == old(mem.cells)[p := BoolText(value)]
    {
      mem.cells := mem.cells[p := BoolText(value)];
      formal := formal[name := p];
    }

    /** The effect of parsing: every assignment in `input` is written, in
        order, through the pointer of its flag. An assignment to an
        undefined flag makes Go's flag package report an error and end the
        process; here it is reported as `ok == false`, with no cell
        changed. */
    method Apply(mem: Memory, input: seq<Assignment>) returns (ok: bool)
      requires Valid(mem)
      modifies mem
      ensures ok <==> AllDefined(input, formal)
      ensures ok ==> WrittenThrough(mem.cells, old(mem.cells), input, formal)
      ensures !ok ==> mem.cells == old(mem.cells)
    {
      ok := AllDefined(input, formal);
      if !ok {
        return;
      }
      var i := 0;
      while i < |input|
        invariant 0 <= i <= |input|
        invariant |mem.cells| == |old(mem.cells)|
        invariant forall p :: 0 <= p < |mem.cells| ==> mem.cells[p] == FinalValue(input[..i], NamesIn(formal, p), old(mem.cells[p]))
      {
        var a := input[i];
        var target := formal[a.flag];
        ghost var before := mem.cells;
        mem.cells := mem.cells[target := a.value];
        assert input[..i + 1] == input[..i] + [a];
        forall p | 0 <= p < |mem.cells|
          ensures mem.cells[p] == FinalValue(input[..i + 1], NamesIn(formal, p), old(mem.cells[p]))
        {
          if p != target {
            assert mem.cells[p] == before[p];
            FinalValueIgnoresOthers(input[..i], a, NamesIn(formal, p), old(mem.cells[p]));
          }
        }
        i := i + 1;
      }
      assert input[..i] == input;
    }
  }
}
