/** The `Program` builder of commando.go: its setters, the help text it
    renders, the table of option slots it allocates before parsing, and the
    map of option values it hands to the action. */
module Commando {
  import opened Options
  import opened Help
  import opened Flags

  // ---------------------------------------------------------------------
  // What the options map holds after parsing

  /** The value an option's slot holds before parsing: the default when the
      option is bound to at least one flag name, and otherwise the empty
      string that `new(string)` allocates, since only `StringVar` writes the
      default. */
  function InitialValue(o: OptionDecl): string
  {
    if o.shortOption != "" || o.longOption != "" then o.defaultValue else ""
  }

  /** The value of option `o` after the user's flags `input`. */
  function OptionValue(o: OptionDecl, input: seq<Assignment>): string
  {
    FinalValue(input, FlagNames(o), InitialValue(o))
  }

  /** The options map the action receives: for every key, the value of the
      last option registered under that key. */
  function ExpectedOptions(options: seq<OptionDecl>, input: seq<Assignment>): (m: map<string, string>)
    ensures m.Keys == MapKeys(options)
  {
    map k | k in MapKeys(options) :: OptionValue(options[LastIndexWithKey(options, k)], input)
  }

  /** With no flags given, every key maps to its option's default, provided
      the option has a short or a long form. */
  lemma NoInputGivesDefaults(options: seq<OptionDecl>, k: string)
    requires k in MapKeys(options)
    ensures var o := options[LastIndexWithKey(options, k)];
            (o.shortOption != "" || o.longOption != "") ==> ExpectedOptions(options, [])[k] == o.defaultValue
  {
  }

  /** A flag the user gives overrides the default: the key maps to the value
      of the last assignment to either form of its option; without one, to
      the initial value. Either way the value is the default or a value the
      user supplied for that option. */
  lemma UserInputOverrides(options: seq<OptionDecl>, input: seq<Assignment>, k: string)
    requires k in MapKeys(options)
    ensures var o := options[LastIndexWithKey(options, k)];
            var v := ExpectedOptions(options, input)[k];
            && (!Supplied(input, FlagNames(o)) ==> v == InitialValue(o))
            && (Supplied(input, FlagNames(o)) ==>
                  exists j :: && 0 <= j < |input| && input[j].flag in FlagNames(o)
                              && v == input[j].value
                              && forall m :: j < m < |input| ==> input[m].flag !in FlagNames(o))
  {
    var o := options[LastIndexWithKey(options, k)];
    FinalValueCases(input, FlagNames(o), InitialValue(o));
  }

  /** An option registered after others takes its key over; every other key
      keeps its value. */
  lemma LastRegistrationWins(options: seq<OptionDecl>, o: OptionDecl, input: seq<Assignment>)
    ensures o.mapKey in ExpectedOptions(options + [o], input)
            && ExpectedOptions(options + [o], input)[o.mapKey] == OptionValue(o, input)
    ensures forall k :: k in MapKeys(options) && k != o.mapKey ==>
              ExpectedOptions(options + [o], input)[k] == ExpectedOptions(options, input)[k]
  {
    assert (options + [o])[|options|] == o;
    LastIndexSnoc(options, o, o.mapKey);
    forall k | k in MapKeys(options) && k != o.mapKey
      ensures ExpectedOptions(options + [o], input)[k] == ExpectedOptions(options, input)[k]
    {
      var j :| 0 <= j < |options| && options[j].mapKey == k;
      assert (options + [o])[j].mapKey == k;
      LastIndexSnoc(options, o, k);
      assert (options + [o])[LastIndexWithKey(options, k)] == options[LastIndexWithKey(options, k)];
    }
  }

  /** An option with neither a short nor a long form is never bound to a
      flag, so its key always maps to the empty string, whatever its
      default. */
  lemma UnboundOptionIsEmpty(o: OptionDecl, input: seq<Assignment>)
    requires o.shortOption == "" && o.longOption == ""
    ensures OptionValue(o, input) == ""
  {
    FinalValueCases(input, FlagNames(o), InitialValue(o));
  }

  // ---------------------------------------------------------------------
  // The slot table and the flag bindings, given where the slots start

  /** The cells `parseOptions` allocates, one per option in option order,
      as they hold after the defaults are written. */
  function InitialValues(options: seq<OptionDecl>): (cells: seq<string>)
    ensures |cells| == |options|
    ensures forall j :: 0 <= j < |options| ==> cells[j] == InitialValue(options[j])
  {
    if options == [] then []
    else InitialValues(options[..|options| - 1]) + [InitialValue(options[|options| - 1])]
  }

  /** `parsedOptions` after `parseOptions`, when the slot of `options[j]` is
      the cell at address `base + j`: each key maps to the slot of the last
      option with that key. */
  function SlotTable(options: seq<OptionDecl>, base: nat): map<string, nat>
  {
    if options == [] then map[]
    else
      var last := |options| - 1;
      SlotTable(options[..last], base)[options[last].mapKey := base + last]
  }

  /** `StringVar` for each non-empty form of `o`, in `parseOptions`' order:
      the flag table `table` with those forms bound to address `p`. */
  function Define(table: map<string, nat>, o: OptionDecl, p: nat): map<string, nat>
  {
    var withShort := if o.shortOption != "" then table[o.shortOption := p] else table;
    if o.longOption != "" then withShort[o.longOption := p] else withShort
  }

  /** The flag table after defining the forms of every option, the slot of
      `options[j]` being at address `base + j`. */
  function DefineAll(table: map<string, nat>, options: seq<OptionDecl>, base: nat): map<string, nat>
  {
    if options == [] then table
    else
      var last := |options| - 1;
      Define(DefineAll(table, options[..last], base), options[last], base + last)
  }

  lemma InitialValuesSnoc(options: seq<OptionDecl>, o: OptionDecl)
    ensures InitialValues(options + [o]) == InitialValues(options) + [InitialValue(o)]
  {
    assert (options + [o])[..|options|] == options;
  }

  lemma SlotTableSnoc(options: seq<OptionDecl>, base: nat, o: OptionDecl)
    ensures SlotTable(options + [o], base) == SlotTable(options, base)[o.mapKey := base + |options|]
  {
    assert (options + [o])[..|options|] == options;
  }

  lemma DefineAllSnoc(table: map<string, nat>, options: seq<OptionDecl>, base: nat, o: OptionDecl)
    ensures DefineAll(table, options + [o], base) == Define(DefineAll(table, options, base), o, base + |options|)
  {
    assert (options + [o])[..|options|] == options;
  }

  /** Defining the forms of one option adds exactly those names, bound to
      its slot, and leaves the other names as they were. */
  lemma DefineFacts(table: map<string, nat>, o: OptionDecl, p: nat)
    ensures Define(table, o, p).Keys == table.Keys + FlagNames(o)
    ensures forall n :: n in FlagNames(o) ==> Define(table, o, p)[n] == p
    ensures forall n :: n in table && n !in FlagNames(o) ==> Define(table, o, p)[n] == table[n]
  {
  }

  /** The slot table has exactly the options' keys, and each key holds the
      slot of the LAST option registered under it. */
  lemma {:induction false} SlotTableLastWins(options: seq<OptionDecl>, base: nat)
    ensures SlotTable(options, base).Keys == MapKeys(options)
    ensures forall k :: k in SlotTable(options, base) ==>
              SlotTable(options, base)[k] == base + LastIndexWithKey(options, k)
  {
    if options != [] {
      var last := |options| - 1;
      var front, o := options[..last], options[last];
      SplitLast(options);
      SlotTableLastWins(front, base);
      MapKeysSnoc(front, o);
      forall k | k in SlotTable(options, base)
        ensures SlotTable(options, base)[k] == base + LastIndexWithKey(options, k)
      {
        LastIndexSnoc(front, o, k);
      }
    }
  }

  /** Defining the options' forms adds exactly those names. */
  lemma {:induction false} DefineAllKeys(table: map<string, nat>, options: seq<OptionDecl>, base: nat)
    ensures DefineAll(table, options, base).Keys == table.Keys + AllFlagNames(options)
  {
    if options != [] {
      var last := |options| - 1;
      SplitLast(options);
      AllFlagNamesSnoc(options[..last], options[last]);
      DefineAllKeys(table, options[..last], base);
      DefineFacts(DefineAll(table, options[..last], base), options[last], base + last);
    }
  }

  /** A name defined before and not among the options' forms keeps its
      binding. */
  lemma {:induction false} DefineAllKeeps(table: map<string, nat>, options: seq<OptionDecl>, base: nat, n: string)
    requires n in table && n !in AllFlagNames(options)
    ensures n in DefineAll(table, options, base) && DefineAll(table, options, base)[n] == table[n]
  {
    if options != [] {
      var last := |options| - 1;
      SplitLast(options);
      AllFlagNamesSnoc(options[..last], options[last]);
      DefineAllKeeps(table, options[..last], base, n);
      DefineFacts(DefineAll(table, options[..last], base), options[last], base + last);
    }
  }

  /** When no flag name repeats, each form of option `j` is bound to the
      slot of option `j`. */
  lemma {:induction false} DefineAllBinds(table: map<string, nat>, options: seq<OptionDecl>, base: nat, j: nat, n: string)
    requires DistinctFlagNames(options)
    requires j < |options| && n in FlagNames(options[j])
    ensures n in DefineAll(table, options, base) && DefineAll(table, options, base)[n] == base + j
  {
    var last := |options| - 1;
    var front, o := options[..last], options[last];
    SplitLast(options);
    DefineFacts(DefineAll(table, front, base), o, base + last);
    if j < last {
      DistinctPrefix(options, last);
      assert front[j] == options[j];
      assert FlagNames(options[j]) !! FlagNames(o);
      DefineAllBinds(table, front, base, j, n);
    }
  }

  /** When no flag name repeats and none is defined before, defining the
      options' forms keeps the earlier definitions, adds exactly the forms
      of the options, and binds each to the slot of its own option. */
  lemma DefineAllFacts(table: map<string, nat>, options: seq<OptionDecl>, base: nat)
    requires DistinctFlagNames(options)
    requires AllFlagNames(options) !! table.Keys
    ensures DefineAll(table, options, base).Keys == table.Keys + AllFlagNames(options)
    ensures forall n :: n in table ==> DefineAll(table, options, base)[n] == table[n]
    ensures forall j, n :: 0 <= j < |options| && n in FlagNames(options[j]) ==>
              DefineAll(table, options, base)[n] == base + j
  {
    DefineAllKeys(table, options, base);
    forall n | n in table
      ensures DefineAll(table, options, base)[n] == table[n]
    {
      DefineAllKeeps(table, options, base, n);
    }
    forall j, n | 0 <= j < |options| && n in FlagNames(options[j])
      ensures DefineAll(table, options, base)[n] == base + j
    {
      DefineAllBinds(table, options, base, j, n);
    }
  }

  /** When the earlier definitions all write below `base`, the names bound
      to the slot of option `j` are exactly that option's forms. */
  lemma NamesOfSlot(table: map<string, nat>, options: seq<OptionDecl>, base: nat, j: nat, names: set<string>)
    requires j < |options|
    requires DistinctFlagNames(options)
    requires AllFlagNames(options) !! table.Keys
    requires forall n :: n in table ==> table[n] < base
    requires forall n :: n in names <==> n in DefineAll(table, options, base) && DefineAll(table, options, base)[n] == base + j
    ensures names == FlagNames(options[j])
  {
    assert names <= FlagNames(options[j]) by {
      forall n | n in names
        ensures n in FlagNames(options[j])
      {
        OnlyOwnFormsBound(table, options, base, j, n);
      }
    }
    assert FlagNames(options[j]) <= names by {
      forall n | n in FlagNames(options[j])
        ensures n in names
      {
        DefineAllBinds(table, options, base, j, n);
      }
    }
  }

  /** A name bound to the slot of option `j` is one of its forms. */
  lemma OnlyOwnFormsBound(table: map<string, nat>, options: seq<OptionDecl>, base: nat, j: nat, n: string)
    requires j < |options|
    requires DistinctFlagNames(options)
    requires forall n :: n in table ==> table[n] < base
    requires n in DefineAll(table, options, base) && DefineAll(table, options, base)[n] == base + j
    ensures n in FlagNames(options[j])
  {
    DefineAllKeys(table, options, base);
    if n in table && n !in AllFlagNames(options) {
      DefineAllKeeps(table, options, base, n);
      assert false;
    } else {
      var m :| 0 <= m < |options| && n in FlagNames(options[m]);
      DefineAllBinds(table, options, base, m, n);
      assert m == j;
    }
  }

  /** Appending to a concatenation appends to its second part. */
  lemma AppendSnoc<T>(a: seq<T>, b: seq<T>, x: T)
    ensures (a + b) + [x] == a + (b + [x])
  {
  }

  /** An element of the appended part of a sequence, by its position. */
  lemma AppendedAt<T>(a: seq<T>, b: seq<T>, j: nat)
    requires j < |b|
    ensures (a + b)[|a| + j] == b[j]
  {
  }

  /** A prefix of options with distinct flag names has distinct flag names. */
  lemma DistinctPrefix(options: seq<OptionDecl>, i: nat)
    requires i <= |options| && DistinctFlagNames(options)
    ensures DistinctFlagNames(options[..i])
  {
    forall a, b | 0 <= a < b < i
      ensures FlagNames(options[..i][a]) !! FlagNames(options[..i][b])
    {
      assert options[..i][a] == options[a] && options[..i][b] == options[b];
    }
  }

  // ---------------------------------------------------------------------
  // The builder

  /** A command-line program under construction. */
  class Program {
    var name: string
    var description: string
    var version: string
    var options: seq<OptionDecl>
    var parsedOptions: map<string, nat>
    var action: ActionRef
    var showVersion: Pointer

    /** `NewProgram`: every field holds its zero value. */
    constructor ()
      ensures name == "" && description == "" && version == ""
      ensures options == [] && parsedOptions == map[] && action.NilAction? && showVersion == Nil
    {
      name := "";
      description := "";
      version := "";
      options := [];
      parsedOptions := map[];
      action := NilAction;
      showVersion := Nil;
    }

    method Name(name: string) returns (p: Program)
      modifies this
      ensures p == this && this.name == name
      ensures unchanged(this`description, this`version, this`options, this`parsedOptions, this`action, this`showVersion)
    {
      this.name := name;
      p := this;
    }

    method Description(description: string) returns (p: Program)
      modifies this
      ensures p == this && this.description == description
      ensures unchanged(this`name, this`version, this`options, this`parsedOptions, this`action, this`showVersion)
    {
      this.description := description;
      p := this;
    }

    method Version(version: string) returns (p: Program)
      modifies this
      ensures p == this && this.version == version
      ensures unchanged(this`name, this`description, this`options, this`parsedOptions, this`action, this`showVersion)
    {
      this.version := version;
      p := this;
    }

    /** Appends one option; the options already registered stay as they
        are, in their order. */
    method Option(shortOption: string, longOption: string, mapKey: string, description: string, defaultValue: string)
      returns (p: Program)
      modifies this
      ensures p == this
      ensures options == old(options) + [OptionDecl(shortOption, longOption, mapKey, description, defaultValue)]
      ensures unchanged(this`name, this`description, this`version, this`parsedOptions, this`action, this`showVersion)
    {
      var o := OptionDecl(shortOption, longOption, mapKey, description, defaultValue);
      options := options + [o];
      p := this;
    }

    method Action(action: ActionRef) returns (p: Program)
      modifies this
      ensures p == this && this.action == action
      ensures unchanged(this`name, this`description, this`version, this`options, this`parsedOptions, this`showVersion)
    {
      this.action := action;
      p := this;
    }

    /** `helpText`: builds the help text segment by segment; the result is
        the rendering of the program's name, description, version and
        options. */
    method HelpText() returns (h: string)
      ensures h == Render(name, description, version, options)
    {
      h := "Usage: " + name + " [options] [arguments]\n";
      if description != "" {
        h := h + ("\n" + description + "\n");
      }
      h := h + "\nOptions:\n";
      assert options[..0] == [];
      for i := 0 to |options|
        invariant h == Opening(name, description) + OptionLines(options[..i])
      {
        var o := options[i];
        var n := OptionName(o);
        h := h + ("  " + PadRight(n, NameWidth) + o.description);
        if o.defaultValue != "" {
          h := h + (" (default: \"" + o.defaultValue + "\")" + "\n");
        } else {
          h := h + "\n";
        }
        OptionLinesStep(Opening(name, description), options, i);
      }
      assert options[..|options|] == options;
      if version != "" {
        h := h + VersionText;
      }
      h := h + HelpLine;
      RenderSegments(name, description, version, options);
      assert "" + HelpLine == HelpLine;
    }

    /** `parseOptions`: for each option in turn, allocates a cell, defines
        each form of the option as a flag writing that cell (which stores
        the option's default in it), and records the cell under the
        option's key. The cells follow the ones already allocated, so the
        slot of option `j` is at `old(|mem.cells|) + j`. Defining a flag
        name twice panics in Go's flag package, so the options' flag names
        must be distinct and not yet defined. */
    method ParseOptions(fs: FlagSet, mem: Memory)
      requires DistinctFlagNames(options)
      requires AllFlagNames(options) !! fs.formal.Keys
      modifies this`parsedOptions, fs, mem
      ensures mem.cells == old(mem.cells) + InitialValues(options)
      ensures parsedOptions == SlotTable(options, old(|mem.cells|))
      ensures fs.formal == DefineAll(old(fs.formal), options, old(|mem.cells|))
    {
      var opts := options;
      ghost var pre, table := mem.cells, fs.formal;
      parsedOptions := map[];
      for i := 0 to |opts|
        invariant mem.cells == pre + InitialValues(opts[..i])
        invariant parsedOptions == SlotTable(opts[..i], |pre|)
        invariant fs.formal == DefineAll(table, opts[..i], |pre|)
      {
        var o := opts[i];
        FreeForOption(table, opts, |pre|, i);
        ghost var cells, formal := mem.cells, fs.formal;
        var s := AllocateSlot(fs, mem, o);
        NextRound(table, pre, opts, i, cells, formal, mem.cells, fs.formal, s);
        parsedOptions := parsedOptions[o.mapKey := s];
      }
      assert opts[..|opts|] == opts;
    }

    /** `dereferenceParsedOptionsMap`: a fresh map with the same keys as the
        slot table, each key mapped to the current content of its slot. Go
        visits the keys in no fixed order; the result does not depend on
        it. */
    method Dereference(mem: Memory) returns (values: map<string, string>)
      requires forall k :: k in parsedOptions ==> parsedOptions[k] < |mem.cells|
      ensures values.Keys == parsedOptions.Keys
      ensures forall k :: k in values ==> values[k] == mem.cells[parsedOptions[k]]
    {
      values := map[];
      var rest := parsedOptions.Keys;
      while rest != {}
        invariant rest <= parsedOptions.Keys
        invariant values.Keys == parsedOptions.Keys - rest
        invariant forall k :: k in values ==> values[k] == mem.cells[parsedOptions[k]]
        decreases rest
      {
        var k :| k in rest;
        values := values[k := mem.cells[parsedOptions[k]]];
        rest := rest - {k};
      }
    }

    /** `addVersionOption`: a new boolean cell, false by default, defined
        as the flags `v` and `version`; `showVersion` points to it. Go's
        flag package panics when either name is already defined. */
    method AddVersionOption(fs: FlagSet, mem: Memory)
      requires VersionNames !! fs.formal.Keys
      modifies this`showVersion, fs, mem
      ensures showVersion == Addr(|old(mem.cells)|)
      ensures mem.cells == old(mem.cells) + [BoolText(false)]
      ensures fs.formal == DefineVersion(old(fs.formal), |old(mem.cells)|)
    {
      var v := mem.New();
      fs.BoolVar(mem, v, "v", false);
      fs.BoolVar(mem, v, "version", false);
      showVersion := Addr(v);
    }

    /** The first two steps of `Parse`: `parseOptions`, then
        `addVersionOption`. The option slots come first, then the version
        cell. */
    method DefineFlags(fs: FlagSet, mem: Memory)
      requires DistinctFlagNames(options)
      requires AllFlagNames(options) !! fs.formal.Keys
      requires VersionNames !! fs.formal.Keys && VersionNames !! AllFlagNames(options)
      modifies this`parsedOptions, this`showVersion, fs, mem
      ensures parsedOptions == SlotTable(options, old(|mem.cells|))
      ensures showVersion == Addr(old(|mem.cells|) + |options|)
      ensures mem.cells == old(mem.cells) + InitialValues(options) + [BoolText(false)]
      ensures fs.formal == ParseFlagTable(old(fs.formal), options, old(|mem.cells|))
    {
      ghost var before, base := fs.formal, |mem.cells|;
      ParseOptions(fs, mem);
      DefineAllKeys(before, options, base);
      AddVersionOption(fs, mem);
    }

    /** The flag handling of `Parse`: allocate the option slots and the
        version flag, let the user's flags `input` write through them, and
        dereference the slot table. Parsing succeeds exactly when every
        given flag is defined; then each option's slot holds the option's
        value, the version cell holds the last value given to `-v` or
        `-version`, the cells allocated before keep their own flags'
        values, and the result is the expected options map. The flag names
        must be distinct, not yet defined and not `v` or `version`, or
        Go's flag package panics. */
    method ParsedValues(fs: FlagSet, mem: Memory, input: seq<Assignment>) returns (ok: bool, values: map<string, string>)
      requires DistinctFlagNames(options)
      requires AllFlagNames(options) !! fs.formal.Keys
      requires VersionNames !! fs.formal.Keys && VersionNames !! AllFlagNames(options)
      requires fs.Valid(mem)
      modifies this`parsedOptions, this`showVersion, fs, mem
      ensures parsedOptions == SlotTable(options, old(|mem.cells|))
      ensures showVersion == Addr(old(|mem.cells|) + |options|)
      ensures fs.formal == ParseFlagTable(old(fs.formal), options, old(|mem.cells|))
      ensures ok <==> forall j :: 0 <= j < |input| ==>
                        input[j].flag in old(fs.formal) || input[j].flag in AllFlagNames(options) || input[j].flag in VersionNames
      ensures !ok ==> mem.cells == old(mem.cells) + InitialValues(options) + [BoolText(false)]
      ensures ok ==> |mem.cells| == old(|mem.cells|) + |options| + 1
      ensures ok ==> forall p :: 0 <= p < old(|mem.cells|) ==>
                       mem.cells[p] == FinalValue(input, NamesIn(old(fs.formal), p), old(mem.cells[p]))
      ensures ok ==> SlotsHoldValues(mem.cells, old(|mem.cells|), options, input)
      ensures ok ==> mem.cells[old(|mem.cells|) + |options|] == FinalValue(input, VersionNames, BoolText(false))
      ensures ok ==> values == ExpectedOptions(options, input)
    {
      ghost var before, pre := fs.formal, mem.cells;
      ghost var base := |mem.cells|;
      DefineFlags(fs, mem);
      ParseFlagTableFacts(before, options, base);
      DefinedAfterParse(before, options, base, input);
      ghost var cells := mem.cells;
      ok := fs.Apply(mem, input);
      if !ok {
        values := map[];
        return;
      }
      SlotTableLastWins(options, base);
      values := Dereference(mem);
      BoundAfterParse(before, options, base);
      SlotsAfterParse(options, input, fs.formal, pre, cells, mem.cells);
      VersionAfterParse(before, options, input, pre, cells, mem.cells);
      assert mem.cells[base + |options|] == FinalValue(input, VersionNames, BoolText(false));
      EarlierAfterParse(before, options, input, pre, cells, mem.cells);
      ValuesAfterParse(options, input, base, mem.cells, values);
    }
  }

  /** The flag names `addVersionOption` defines. */
  const VersionNames: set<string> := {"v", "version"}

  /** The flag table `table` with the version flags bound to address `p`. */
  function DefineVersion(table: map<string, nat>, p: nat): map<string, nat>
  {
    table["v" := p]["version" := p]
  }

  /** The version flags, bound to a cell above every cell of `table`, are
      the only names of that cell. */
  lemma VersionFlagsBound(table: map<string, nat>, q: nat)
    requires forall n :: n in table ==> table[n] < q
    requires VersionNames !! table.Keys
    ensures DefineVersion(table, q).Keys == table.Keys + VersionNames
    ensures forall n :: n in DefineVersion(table, q) ==> DefineVersion(table, q)[n] <= q
    ensures NamesIn(DefineVersion(table, q), q) == VersionNames
  {
  }

  /** The version flags are still free after `parseOptions`. */
  lemma VersionFree(before: map<string, nat>, options: seq<OptionDecl>, base: nat)
    requires VersionNames !! before.Keys && VersionNames !! AllFlagNames(options)
    ensures VersionNames !! DefineAll(before, options, base).Keys
  {
    DefineAllKeys(before, options, base);
  }

  /** The version flags leave the names of every other cell as they were. */
  lemma VersionKeepsNames(table: map<string, nat>, q: nat, p: nat)
    requires VersionNames !! table.Keys
    requires p != q
    ensures NamesIn(DefineVersion(table, q), p) == NamesIn(table, p)
  {
  }

  /** The flag table after `parseOptions` and `addVersionOption`, when the
      option slots start at `base`. */
  function ParseFlagTable(before: map<string, nat>, options: seq<OptionDecl>, base: nat): map<string, nat>
  {
    DefineVersion(DefineAll(before, options, base), base + |options|)
  }

  /** After `parseOptions` and `addVersionOption`, the defined flags are
      those defined before, the options' forms and the version flags, and
      each writes a cell allocated by then. */
  lemma ParseFlagTableFacts(before: map<string, nat>, options: seq<OptionDecl>, base: nat)
    requires DistinctFlagNames(options)
    requires AllFlagNames(options) !! before.Keys
    requires VersionNames !! before.Keys && VersionNames !! AllFlagNames(options)
    requires forall n :: n in before ==> before[n] < base
    ensures ParseFlagTable(before, options, base).Keys == before.Keys + AllFlagNames(options) + VersionNames
    ensures forall n :: n in ParseFlagTable(before, options, base) ==> ParseFlagTable(before, options, base)[n] <= base + |options|
  {
    DefineAllKeys(before, options, base);
    ValidAfterDefine(before, options, base);
    VersionFlagsBound(DefineAll(before, options, base), base + |options|);
  }

  /** The user's flags are all defined after `parseOptions` and
      `addVersionOption` exactly when each was defined before, is a form of
      an option or is a version flag. */
  lemma DefinedAfterParse(before: map<string, nat>, options: seq<OptionDecl>, base: nat, input: seq<Assignment>)
    requires DistinctFlagNames(options)
    requires AllFlagNames(options) !! before.Keys
    requires VersionNames !! before.Keys && VersionNames !! AllFlagNames(options)
    requires forall n :: n in before ==> before[n] < base
    ensures AllDefined(input, ParseFlagTable(before, options, base)) <==>
            forall j :: 0 <= j < |input| ==>
              input[j].flag in before || input[j].flag in AllFlagNames(options) || input[j].flag in VersionNames
  {
    ParseFlagTableFacts(before, options, base);
  }

  /** After `parseOptions` and `addVersionOption`, the names bound to the
      slot of each option are exactly that option's forms. */
  lemma BoundAfterParse(before: map<string, nat>, options: seq<OptionDecl>, base: nat)
    requires DistinctFlagNames(options)
    requires AllFlagNames(options) !! before.Keys
    requires VersionNames !! before.Keys && VersionNames !! AllFlagNames(options)
    requires forall n :: n in before ==> before[n] < base
    ensures BoundTo(ParseFlagTable(before, options, base), options, base)
  {
    var table := DefineAll(before, options, base);
    VersionFree(before, options, base);
    SlotNames(before, options, base);
    forall j | 0 <= j < |options|
      ensures NamesIn(ParseFlagTable(before, options, base), base + j) == FlagNames(options[j])
    {
      VersionKeepsNames(table, base + |options|, base + j);
      assert NamesIn(table, base + j) == FlagNames(options[j]);
    }
  }

  /** The version cell ends with the last value given to `-v` or
      `-version`, or false when neither is given. */
  lemma VersionAfterParse(before: map<string, nat>, options: seq<OptionDecl>, input: seq<Assignment>,
                          pre: seq<string>, cells: seq<string>, after: seq<string>)
    requires DistinctFlagNames(options)
    requires AllFlagNames(options) !! before.Keys
    requires VersionNames !! before.Keys && VersionNames !! AllFlagNames(options)
    requires forall n :: n in before ==> before[n] < |pre|
    requires cells == pre + InitialValues(options) + [BoolText(false)]
    requires WrittenThrough(after, cells, input, ParseFlagTable(before, options, |pre|))
    ensures |pre| + |options| < |after|
    ensures after[|pre| + |options|] == FinalValue(input, VersionNames, BoolText(false))
  {
    DefineAllKeys(before, options, |pre|);
    ValidAfterDefine(before, options, |pre|);
    VersionFlagsBound(DefineAll(before, options, |pre|), |pre| + |options|);
    assert cells[|pre| + |options|] == BoolText(false);
  }

  /** The cells allocated before `parseOptions` keep the names they had, so
      they end with the values given to those names. */
  lemma EarlierAfterParse(before: map<string, nat>, options: seq<OptionDecl>, input: seq<Assignment>,
                          pre: seq<string>, cells: seq<string>, after: seq<string>)
    requires DistinctFlagNames(options)
    requires AllFlagNames(options) !! before.Keys
    requires VersionNames !! before.Keys && VersionNames !! AllFlagNames(options)
    requires forall n :: n in before ==> before[n] < |pre|
    requires cells == pre + InitialValues(options) + [BoolText(false)]
    requires WrittenThrough(after, cells, input, ParseFlagTable(before, options, |pre|))
    ensures forall p :: 0 <= p < |pre| ==> p < |after| && after[p] == FinalValue(input, NamesIn(before, p), pre[p])
  {
    var table := DefineAll(before, options, |pre|);
    VersionFree(before, options, |pre|);
    forall p | 0 <= p < |pre|
      ensures p < |after| && after[p] == FinalValue(input, NamesIn(before, p), pre[p])
    {
      VersionKeepsNames(table, |pre| + |options|, p);
      EarlierCellNames(before, options, |pre|, p);
      assert NamesIn(ParseFlagTable(before, options, |pre|), p) == NamesIn(table, p);
      assert cells[p] == pre[p];
    }
  }

  /** A cell below `base` has the same names after the options are
      defined as before. */
  lemma EarlierCellNames(before: map<string, nat>, options: seq<OptionDecl>, base: nat, p: nat)
    requires DistinctFlagNames(options)
    requires AllFlagNames(options) !! before.Keys
    requires p < base
    ensures NamesIn(DefineAll(before, options, base), p) == NamesIn(before, p)
  {
    var table := DefineAll(before, options, base);
    DefineAllKeys(before, options, base);
    forall n
      ensures n in NamesIn(table, p) <==> n in NamesIn(before, p)
    {
      if n in before {
        DefineAllKeeps(before, options, base, n);
      } else if n in table {
        var j :| 0 <= j < |options| && n in FlagNames(options[j]);
        DefineAllBinds(before, options, base, j, n);
      }
    }
  }

  /** After `parseOptions`, the names bound to the slot of each option are
      exactly that option's forms. */
  lemma SlotNames(before: map<string, nat>, options: seq<OptionDecl>, base: nat)
    requires DistinctFlagNames(options)
    requires AllFlagNames(options) !! before.Keys
    requires forall n :: n in before ==> before[n] < base
    ensures BoundTo(DefineAll(before, options, base), options, base)
  {
    forall j | 0 <= j < |options|
      ensures NamesIn(DefineAll(before, options, base), base + j) == FlagNames(options[j])
    {
      NamesOfSlot(before, options, base, j, NamesIn(DefineAll(before, options, base), base + j));
    }
  }

  /** The names `table` binds to the cell at `base + j` are the forms of
      `options[j]`. */
  predicate BoundTo(table: map<string, nat>, options: seq<OptionDecl>, base: nat)
  {
    forall j :: 0 <= j < |options| ==> NamesIn(table, base + j) == FlagNames(options[j])
  }

  /** `values` holds, under each key of `slots`, the content of its cell. */
  predicate ReadBack(values: map<string, string>, slots: map<string, nat>, cells: seq<string>)
  {
    && values.Keys == slots.Keys
    && forall k :: k in values ==> slots[k] < |cells| && values[k] == cells[slots[k]]
  }

  /** The cell at `base + j` holds the value of option `j`, for each `j`. */
  predicate SlotsHoldValues(after: seq<string>, base: nat, options: seq<OptionDecl>, input: seq<Assignment>)
  {
    forall j :: 0 <= j < |options| ==> base + j < |after| && after[base + j] == OptionValue(options[j], input)
  }

  /** Once the user's flags are written, each option's slot holds the
      option's value: when the cells after `parseOptions` are `pre`
      followed by the options' initial values and the names bound to each
      option's slot are its forms. */
  lemma SlotsAfterParse(options: seq<OptionDecl>, input: seq<Assignment>, table: map<string, nat>,
                        pre: seq<string>, cells: seq<string>, after: seq<string>)
    requires BoundTo(table, options, |pre|)
    requires cells == pre + InitialValues(options) + [BoolText(false)]
    requires WrittenThrough(after, cells, input, table)
    ensures SlotsHoldValues(after, |pre|, options, input)
  {
    forall j | 0 <= j < |options|
      ensures |pre| + j < |after| && after[|pre| + j] == OptionValue(options[j], input)
    {
      SlotValueAfter(options, input, table, pre, cells, after, j);
    }
  }

  /** The slot of option `j` ends with the option's value. */
  lemma SlotValueAfter(options: seq<OptionDecl>, input: seq<Assignment>, table: map<string, nat>,
                       pre: seq<string>, cells: seq<string>, after: seq<string>, j: nat)
    requires BoundTo(table, options, |pre|)
    requires cells == pre + InitialValues(options) + [BoolText(false)]
    requires WrittenThrough(after, cells, input, table)
    requires j < |options|
    ensures |pre| + j < |after| && after[|pre| + j] == OptionValue(options[j], input)
  {
    AppendedAt(pre, InitialValues(options), j);
    assert cells[|pre| + j] == InitialValue(options[j]);
    assert NamesIn(table, |pre| + j) == FlagNames(options[j]);
  }

  /** Reading back the slot table: when each option's slot holds the
      option's value, reading each key's slot gives the expected options
      map. */
  lemma ValuesAfterParse(options: seq<OptionDecl>, input: seq<Assignment>, base: nat,
                         after: seq<string>, values: map<string, string>)
    requires SlotsHoldValues(after, base, options, input)
    requires ReadBack(values, SlotTable(options, base), after)
    ensures values == ExpectedOptions(options, input)
  {
    SlotTableLastWins(options, base);
    forall k | k in MapKeys(options)
      ensures values[k] == OptionValue(options[LastIndexWithKey(options, k)], input)
    {
      KeyValue(options, input, base, after, values, k);
    }
    IsExpectedOptions(options, input, values);
  }

  /** `ValuesAfterParse` for the one key `k`. */
  lemma KeyValue(options: seq<OptionDecl>, input: seq<Assignment>, base: nat,
                 after: seq<string>, values: map<string, string>, k: string)
    requires SlotsHoldValues(after, base, options, input)
    requires ReadBack(values, SlotTable(options, base), after)
    requires k in MapKeys(options) && k in SlotTable(options, base)
    requires SlotTable(options, base)[k] == base + LastIndexWithKey(options, k)
    ensures k in values && values[k] == OptionValue(options[LastIndexWithKey(options, k)], input)
  {
    var j := LastIndexWithKey(options, k);
    assert after[base + j] == OptionValue(options[j], input);
    assert values[k] == after[base + j];
  }

  /** A map with the options' keys that maps each to the value of the last
      option registered under it is the expected options map. */
  lemma IsExpectedOptions(options: seq<OptionDecl>, input: seq<Assignment>, values: map<string, string>)
    requires values.Keys == MapKeys(options)
    requires forall k :: k in MapKeys(options) ==> values[k] == OptionValue(options[LastIndexWithKey(options, k)], input)
    ensures values == ExpectedOptions(options, input)
  {
  }

  /** One round of `parseOptions`' loop, up to storing the slot: a new cell,
      bound under each form of `o`, holding the option's initial value. */
  method AllocateSlot(fs: FlagSet, mem: Memory, o: OptionDecl) returns (p: nat)
    requires FlagNames(o) !! fs.formal.Keys
    requires o.shortOption != "" ==> o.shortOption != o.longOption
    modifies fs, mem
    ensures p == |old(mem.cells)|
    ensures mem.cells == old(mem.cells) + [InitialValue(o)]
    ensures fs.formal == Define(old(fs.formal), o, p)
  {
    p := mem.New();
    if o.shortOption != "" {
      fs.StringVar(mem, p, o.shortOption, o.defaultValue);
    }
    if o.longOption != "" {
      fs.StringVar(mem, p, o.longOption, o.defaultValue);
    }
  }

  /** After `parseOptions`, every defined flag still writes an allocated
      cell. */
  lemma ValidAfterDefine(table: map<string, nat>, options: seq<OptionDecl>, base: nat)
    requires DistinctFlagNames(options)
    requires AllFlagNames(options) !! table.Keys
    requires forall n :: n in table ==> table[n] < base
    ensures forall n :: n in DefineAll(table, options, base) ==> DefineAll(table, options, base)[n] < base + |options|
  {
    DefineAllFacts(table, options, base);
  }

  /** One round of `parseOptions`' loop keeps its invariant: the cell of
      option `i` is the next one, and the cells, the slot table and the
      flag table grow by option `i`. */
  lemma NextRound(table: map<string, nat>, pre: seq<string>, opts: seq<OptionDecl>, i: nat,
                  cells: seq<string>, formal: map<string, nat>, cells': seq<string>, formal': map<string, nat>, p: nat)
    requires i < |opts|
    requires cells == pre + InitialValues(opts[..i])
    requires formal == DefineAll(table, opts[..i], |pre|)
    requires p == |cells| && cells' == cells + [InitialValue(opts[i])]
    requires formal' == Define(formal, opts[i], p)
    ensures p == |pre| + i
    ensures cells' == pre + InitialValues(opts[..i + 1])
    ensures formal' == DefineAll(table, opts[..i + 1], |pre|)
    ensures SlotTable(opts[..i + 1], |pre|) == SlotTable(opts[..i], |pre|)[opts[i].mapKey := p]
  {
    PrefixSnoc(opts, i);
    InitialValuesSnoc(opts[..i], opts[i]);
    AppendSnoc(pre, InitialValues(opts[..i]), InitialValue(opts[i]));
    SlotTableSnoc(opts[..i], |pre|, opts[i]);
    DefineAllSnoc(table, opts[..i], |pre|, opts[i]);
  }

  /** Before option `i` is processed, none of its forms is defined yet. */
  lemma FreeForOption(table: map<string, nat>, options: seq<OptionDecl>, base: nat, i: nat)
    requires i < |options|
    requires DistinctFlagNames(options)
    requires AllFlagNames(options) !! table.Keys
    ensures FlagNames(options[i]) !! DefineAll(table, options[..i], base).Keys
    ensures options[i].shortOption != "" ==> options[i].shortOption != options[i].longOption
  {
    NewNamesAreFree(options, i);
    PrefixFlagNames(options, i);
    DefineAllKeys(table, options[..i], base);
  }

  /** The options before `i` bind no name the whole list does not. */
  lemma PrefixFlagNames(options: seq<OptionDecl>, i: nat)
    requires i <= |options|
    ensures AllFlagNames(options[..i]) <= AllFlagNames(options)
  {
    forall n | n in AllFlagNames(options[..i])
      ensures n in AllFlagNames(options)
    {
      var j :| 0 <= j < i && n in FlagNames(options[..i][j]);
      assert options[..i][j] == options[j];
    }
  }

  /** The flag names of option `i` are defined neither before commando runs
      nor by an earlier option. */
  lemma NewNamesAreFree(options: seq<OptionDecl>, i: nat)
    requires i < |options|
    requires DistinctFlagNames(options)
    ensures FlagNames(options[i]) !! AllFlagNames(options[..i])
    ensures options[i].shortOption != "" ==> options[i].shortOption != options[i].longOption
  {
  }
}
