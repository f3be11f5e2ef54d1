# commando in Dafny

A model of `commando.go`, a small builder for Go command-line programs.
A `Program` is configured with chained setters: name, description,
version, options and an action callback. It renders the `-h/--help` text
from that configuration. Before parsing, it allocates one string variable
per option and binds each option's short and long form to it as a flag.
After parsing, it hands the action a map from each option's key to the
value of its variable.

Files:

- `options.dfy` (module `Options`): the option record, the action reference,
  and facts about the flag names and keys of an option list.
- `help.dfy` (module `Help`): the help renderer as a pure function. It comes
  with lemmas about the layout of the text it renders.
- `flags.dfy` (module `Flags`): the parts of Go's `flag` package that
  commando relies on. `StringVar` defines a name bound to a variable. The
  effect of parsing is to write each user-supplied value through its flag's
  variable.
- `program.dfy` (module `Commando`): the `Program` class. Its setters update
  its fields in place. `HelpText`, `ParseOptions` and `Dereference` are
  proved against specification functions. Lemmas relate the resulting
  options map to the user's input.

Go pointers to strings (`*string`) are modelled as addresses into a
`Flags.Memory` of string cells. `new(string)` appends a cell holding `""`.
An option's short and long forms are bound to the same address, so a write
through either form is visible through the other. The slot of the `j`-th
option is the cell at address `base + j`, where `base` is the number of
cells allocated before `parseOptions` ran.

The code and the comment on `Option` (commando.go:69) disagree on one
point. The comment says the default is always placed in the options map.
In the code, only `flag.StringVar` writes the default. An option with
neither a short nor a long form is therefore never defined as a flag, and
its key maps to the empty string that `new(string)` allocated. The model
follows the code; `Commando.UnboundOptionIsEmpty` states this case.

## Model

| member | source | states |
|---|---|---|
| Options.FlagNames | commando.go:112-118 | an option is bound under its short form exactly when that form is non-empty, and under its long form exactly when that form is non-empty, and under no other name |
| Options.LastIndexWithKey | commando.go:109-120 | for a registered key, the index of an option registered under that key |
| Options.LastIndexIsLast | commando.go:109-120 | no option after that index has the key, so later assignments to `parsedOptions` under a key overwrite earlier ones |
| Help.PadRight | commando.go:145 | `%-40s` yields the name in full followed by spaces, at least 40 characters long and never truncated |
| Help.OptionName | commando.go:163-180 | the four layouts: `-s, --long <key>`, `-s <key>`, `--long <key>`, and ` <key>` alone when neither form is set |
| Help.RenderOpening | commando.go:134-140 | the help text starts with `Usage: <name> [options] [arguments]`, followed by the description paragraph exactly when the description is non-empty, then the `Options:` header |
| Help.OptionLineAt | commando.go:142-152 | within the option block, each option's line comes right after the lines of the options registered before it |
| Help.RenderOptionLineAt | commando.go:142-152 | in the whole text, the `i`-th option's line sits right after the opening and the lines of options `0..i-1`, so lines appear in registration order |
| Help.OptionLineLayout | commando.go:145-151 | an option line is two spaces, the name, spaces up to column max(42, 2 + name length), the description, then ` (default: "<value>")` exactly when the default is non-empty, then a line break |
| Help.OptionLineIsOneLine | commando.go:145-151 | an option whose fields hold no line break renders as exactly one line |
| Help.OptionLinesCount | commando.go:142-152 | the option block has exactly one line per option when no option field holds a line break |
| Help.RenderClosing | commando.go:154-160 | the `-v, --version` line appears exactly when a version is set; the `-h, --help` line always ends the text |
| Flags.Memory.New | commando.go:110 | `new(string)` returns the next address, and the new cell holds `""` |
| Flags.FlagSet.StringVar | commando.go:112-118 | defines the name, bound to the given address, and writes the default through it; nothing else changes |
| Flags.FlagSet.BoolVar | commando.go:127-128 | defines the name, bound to the given address, and writes `"true"` or `"false"` through it as its default; nothing else changes |
| Flags.FinalValueCases | commando.go:94 | after parsing, a variable holds its initial value if none of its names was given; otherwise it holds the value of the last assignment to one of them |
| Flags.FlagSet.Apply | commando.go:94 | parsing succeeds exactly when every given flag is defined; then every cell holds the final value for the names bound to it, and otherwise no cell changes |
| Commando.Program.constructor | commando.go:37-40 | `NewProgram` yields a program whose fields all hold their zero values |
| Commando.Program.Name | commando.go:42-46 | sets the name, changes no other field, and returns the same program |
| Commando.Program.Description | commando.go:48-53 | sets the description, changes no other field, and returns the same program |
| Commando.Program.Version | commando.go:55-60 | sets the version, changes no other field, and returns the same program |
| Commando.Program.Option | commando.go:62-75 | appends exactly one option record holding the five arguments and keeps the earlier options in order; no other field changes |
| Commando.Program.Action | commando.go:77-81 | sets the action, changes no other field, and returns the same program |
| Commando.Program.HelpText | commando.go:133-161 | the text built step by step equals `Help.Render` of the program's name, description, version and options |
| Commando.InitialValues | commando.go:109-118 | the cells allocated during `parseOptions` hold, in option order, the default of each option with a flag form, and `""` for the others |
| Commando.AllocateSlot | commando.go:110-118 | one round of the loop: allocates the next cell, binds the option's non-empty forms to it, and leaves it holding the option's initial value |
| Commando.NextRound | commando.go:109-121 | one round extends the cells, the slot table and the flag table by exactly that option |
| Commando.Program.ParseOptions | commando.go:106-122 | the cells grow by one initial value per option; `parsedOptions` is the slot table; the flag table gains exactly the options' forms |
| Commando.SlotTableLastWins | commando.go:106-122 | the slot table's keys are exactly the options' keys, and each key maps to the slot of the last option registered under it |
| Commando.DefineAllFacts | commando.go:109-121 | after `parseOptions` the flag table holds the names defined earlier, unchanged, plus every form of every option, bound to that option's slot |
| Commando.NamesOfSlot | commando.go:112-118 | the names bound to option `j`'s slot are exactly option `j`'s forms |
| Commando.Program.Dereference | commando.go:182-190 | the result has the same keys as `parsedOptions`, and each key maps to the current content of its slot, whatever the visit order |
| Commando.ExpectedOptions | commando.go:182-190 | the options map has exactly the keys of the registered options |
| Commando.Program.AddVersionOption | commando.go:124-131 | allocates one more cell holding false, defines both `v` and `version` bound to it, and points `showVersion` at it |
| Commando.VersionFlagsBound | commando.go:124-131 | the version flags are added to the flag table; the version cell's names are exactly `v` and `version`, and every defined flag writes a cell no higher than it |
| Commando.VersionKeepsNames | commando.go:124-131 | defining the version flags leaves the names of every other cell as they were |
| Commando.Program.DefineFlags | commando.go:86-87 | after `parseOptions` and `addVersionOption`, the option slots hold their initial values, followed by the version cell holding false; `parsedOptions` is the slot table, and the flag table gains the options' forms and the two version flags |
| Commando.Program.ParsedValues | commando.go:85-104 | the flags are defined as by `parseOptions` and `addVersionOption`. Parsing succeeds exactly when every given flag was defined before, is a form of an option, or is `v` or `version`; otherwise memory is left as the definitions wrote it. On success: each option's slot holds that option's value; the version cell holds the last value given to `-v`/`-version`, or false; earlier cells hold the values given to their own flags; and the options map is `ExpectedOptions` |
| Commando.VersionAfterParse | commando.go:94-96 | after parsing, the version cell holds the last value given to `-v` or `-version`, or false |
| Commando.EarlierAfterParse | commando.go:94 | cells allocated before `parseOptions` keep their names, so after parsing they hold the values given to those names |
| Commando.ValuesAfterParse | commando.go:182-190 | reading the slot table back from memory after parsing yields `ExpectedOptions` |
| Commando.NoInputGivesDefaults | commando.go:67-69 | with no flags given, each key maps to the default of its last option, provided that option has a flag form |
| Commando.UserInputOverrides | commando.go:67-69 | a key maps to the value of the last assignment to either form of its option; without one, to the initial value |
| Commando.LastRegistrationWins | commando.go:120 | registering an option takes its key over, and every other key keeps its value |
| Commando.UnboundOptionIsEmpty | commando.go:110-120 | an option with neither form maps to `""`, whatever its default |

## Left out

- `Parse` as a whole (commando.go:85-104) is not modelled. Its flag handling (`parseOptions`, `addVersionOption`, the effect of `flag.Parse`, `dereferenceParsedOptionsMap`) is `Commando.Program.ParsedValues`. Installing `flag.Usage`, printing, `os.Exit` and calling the action are I/O or foreign calls.
- Commando.Program.ParsedValues: when the version flag is set, Go prints the version and exits (commando.go:96-99) before it dereferences the slot table. The model still returns the options map, and states the version cell's content instead. An option named `v` or `version` makes Go panic with "flag redefined" once `addVersionOption` runs. Here that is excluded by a precondition.
- Flags.FlagSet.BoolVar: the cell holds the text `"true"` or `"false"`, not a Go `bool`. The flag package's bool parsing is not modelled. That includes `-v` given without a value meaning true, and values such as `1` or `t` being accepted. The version cell holds the text the user gave.
- The tokenising of the command line by Go's `flag` package is not modelled. This includes `-x=v` and `-x v` forms, `--` and positional arguments. So are its built-in `-h/--help` handling and its error output. Parsing is modelled as the sequence of (flag, value) assignments it yields, in order.
- Flags.FlagSet.Apply: an undefined flag makes the Go package print an error and exit. Here that case is the result `ok == false` with memory untouched.
- Flags.FlagSet.StringVar: redefining a flag panics in Go. Here it is a precondition, so `ParseOptions` requires distinct option forms that are not already defined. The usage string that `StringVar` records for the flag package's own help is not modelled.
- The action callback returns nothing, and its effects are not modelled. `Program.Action` records only which callback is set.
- Strings are sequences of characters. Go's `%-40s` pads to 40 runes, and a character stands for a rune. No byte encoding is modelled.
- Go's `flag` package and the `Program` use one global flag set. Here the flag set and the memory are explicit parameters.
