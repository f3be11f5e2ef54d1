/** The option record of commando.go and the facts about a list of such
    records that the help renderer and the slot table both rely on. */
module Options {

  /** One registered command-line option (the `option` struct). An empty
      `shortOption` or `longOption` means that form is not registered. */
  datatype OptionDecl = OptionDecl(
    shortOption: string,
    longOption: string,
    mapKey: string,
    description: string,
    defaultValue: string)

  /** The caller's callback. Go's zero value for a func field is nil; the
      callback returns nothing, so its effects lie outside the model. */
  datatype ActionRef =
    | NilAction
    | ActionFunc(call: (seq<string>, map<string, string>) -> ())

  /** The flag names under which an option is bound: each non-empty form. */
  function FlagNames(o: OptionDecl): (names: set<string>)
    ensures o.shortOption in names <==> o.shortOption != ""
    ensures o.longOption in names <==> o.longOption != ""
    ensures forall n :: n in names ==> n == o.shortOption || n == o.longOption
    ensures "" !in names
  {
    (if o.shortOption != "" then {o.shortOption} else {})
    + (if o.longOption != "" then {o.longOption} else {})
  }

  /** Every flag name the options bind, in any option. */
  function AllFlagNames(opts: seq<OptionDecl>): (names: set<string>)
    ensures forall j :: 0 <= j < |opts| ==> FlagNames(opts[j]) <= names
    ensures forall n :: n in names ==> exists j :: 0 <= j < |opts| && n in FlagNames(opts[j])
  {
    set j, n | 0 <= j < |opts| && n in FlagNames(opts[j]) :: n
  }

  /** The flag library refuses (panics on) a name registered twice, so the
      registrations commando makes for `opts` succeed only when no name
      repeats: neither the two forms of one option nor forms of two options. */
  predicate DistinctFlagNames(opts: seq<OptionDecl>)
  {
    && (forall j :: 0 <= j < |opts| && opts[j].shortOption != "" ==> opts[j].shortOption != opts[j].longOption)
    && (forall i, j :: 0 <= i < j < |opts| ==> FlagNames(opts[i]) !! FlagNames(opts[j]))
  }

  /** The set of lookup keys of the options. */
  function MapKeys(opts: seq<OptionDecl>): (keys: set<string>)
    ensures forall k :: k in keys <==> exists j :: 0 <= j < |opts| && opts[j].mapKey == k
  {
    set j | 0 <= j < |opts| :: opts[j].mapKey
  }

  /** The index of the LAST option registered under key `k`. */
  function LastIndexWithKey(opts: seq<OptionDecl>, k: string): (r: nat)
    requires k in MapKeys(opts)
    ensures r < |opts| && opts[r].mapKey == k
  {
    var last := |opts| - 1;
    if opts[last].mapKey == k then last
    else
      assert k in MapKeys(opts[..last]) by {
        var j :| 0 <= j < |opts| && opts[j].mapKey == k;
        assert opts[..last][j].mapKey == k;
      }
      LastIndexWithKey(opts[..last], k)
  }

  /** No option after `LastIndexWithKey(opts, k)` has key `k`. */
  lemma {:induction false} LastIndexIsLast(opts: seq<OptionDecl>, k: string)
    requires k in MapKeys(opts)
    ensures forall j :: LastIndexWithKey(opts, k) < j < |opts| ==> opts[j].mapKey != k
  {
    var last := |opts| - 1;
    if opts[last].mapKey != k {
      var j :| 0 <= j < |opts| && opts[j].mapKey == k;
      assert opts[..last][j].mapKey == k;
      LastIndexIsLast(opts[..last], k);
      forall j | LastIndexWithKey(opts, k) < j < last
        ensures opts[j].mapKey != k
      {
        assert opts[..last][j] == opts[j];
      }
    }
  }

  /** Registering one more option: it is the last with its own key, and
      the other keys keep their last option. */
  lemma LastIndexSnoc(opts: seq<OptionDecl>, o: OptionDecl, k: string)
    requires k in MapKeys(opts + [o])
    ensures k == o.mapKey ==> LastIndexWithKey(opts + [o], k) == |opts|
    ensures k != o.mapKey ==> k in MapKeys(opts) && LastIndexWithKey(opts + [o], k) == LastIndexWithKey(opts, k)
  {
    if k != o.mapKey {
      var j :| 0 <= j < |opts| + 1 && (opts + [o])[j].mapKey == k;
      assert opts[j].mapKey == k;
      assert (opts + [o])[..|opts|] == opts;
    }
  }

  /** Registering one more option adds its key. */
  lemma MapKeysSnoc(opts: seq<OptionDecl>, o: OptionDecl)
    ensures MapKeys(opts + [o]) == MapKeys(opts) + {o.mapKey}
  {
    var all := opts + [o];
    assert all[|opts|] == o;
    forall k | k in MapKeys(opts)
      ensures k in MapKeys(all)
    {
      var j :| 0 <= j < |opts| && opts[j].mapKey == k;
      assert all[j].mapKey == k;
    }
  }

  /** Registering one more option adds its flag names. */
  lemma AllFlagNamesSnoc(opts: seq<OptionDecl>, o: OptionDecl)
    ensures AllFlagNames(opts + [o]) == AllFlagNames(opts) + FlagNames(o)
  {
    var all := opts + [o];
    assert all[|opts|] == o;
    forall n | n in AllFlagNames(all)
      ensures n in AllFlagNames(opts) + FlagNames(o)
    {
      var j :| 0 <= j < |all| && n in FlagNames(all[j]);
      if j < |opts| {
        assert all[j] == opts[j];
      }
    }
    forall n | n in AllFlagNames(opts)
      ensures n in AllFlagNames(all)
    {
      var j :| 0 <= j < |opts| && n in FlagNames(opts[j]);
      assert all[j] == opts[j];
    }
  }

  /** A prefix one element longer is the prefix with that element added. */
  lemma PrefixSnoc<T>(s: seq<T>, i: nat)
    requires i < |s|
    ensures s[..i + 1] == s[..i] + [s[i]]
  {
  }

  /** A non-empty sequence is its front followed by its last element. */
  lemma SplitLast<T>(s: seq<T>)
    requires s != []
    ensures s == s[..|s| - 1] + [s[|s| - 1]]
  {
  }
}
