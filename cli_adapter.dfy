/**
 * The command-line entry point of the extraction module. Unless it is
 * asked for its XML description, it rewrites `sys.argv` in place before
 * handing over to the feature extractor's own argument parser: an
 * old-style `--label N` pair becomes `--setting=label:N` at the end, and
 * three fixed flags follow.
 */
module CliAdapter {
  import Text

  /** What the script does with its arguments. */
  datatype Mode =
    | PrintDescription  // `--xml` or `-x`: the module description is printed, argv is left alone
    | Extract           // argv is rewritten and handed to the extractor

  const LabelFlag: string := "--label"

  /** The prefix of the new-style label setting. */
  const LabelSetting: string := "--setting=label:"

  /** The flags appended after every rewrite, in this order. */
  const AppendedFlags: seq<string> := ["--format=csv", "--verbosity=4", "--setting=correctMask:True"]

  /** `args.index(x)`: the position of the first occurrence of `x`. */
  function IndexOf(args: seq<string>, x: string): (i: nat)
    requires x in args
    ensures i < |args| && args[i] == x && x !in args[..i]
  {
    if args[0] == x then 0
    else
      assert args == [args[0]] + args[1..];
      var j := IndexOf(args[1..], x);
      assert args[..j + 1] == [args[0]] + args[1..][..j];
      j + 1
  }

  /** The first occurrence is the only position with `x` and no `x` before it. */
  lemma IndexOfFirst(args: seq<string>, x: string, i: nat)
    requires i < |args| && args[i] == x && x !in args[..i]
    ensures IndexOf(args, x) == i
  {
    var k := IndexOf(args, x);
  }

  /** `sys.argv[1] == '--xml' or sys.argv[1] == '-x'`. */
  predicate IsDescriptionRequest(args: seq<string>)
    requires |args| >= 2
  {
    args[1] == "--xml" || args[1] == "-x"
  }

  /** A `--label` argument, if there is one, is followed by its value. */
  predicate LabelHasValue(args: seq<string>)
  {
    LabelFlag in args ==> IndexOf(args, LabelFlag) + 1 < |args|
  }

  /** What argv becomes before the label setting and the fixed flags are appended: the first `--label` pair removed. */
  function WithoutLabel(args: seq<string>): seq<string>
    requires LabelHasValue(args)
  {
    if LabelFlag in args then
      var i := IndexOf(args, LabelFlag);
      args[..i] + args[i + 2..]
    else args
  }

  /** The new-style label setting, when argv has an old-style label. */
  function LabelSettings(args: seq<string>): seq<string>
    requires LabelHasValue(args)
  {
    if LabelFlag in args then [LabelSetting + args[IndexOf(args, LabelFlag) + 1]] else []
  }

  /** What is appended at the end: the label setting, if any, then the fixed flags. */
  function Appended(args: seq<string>): seq<string>
    requires LabelHasValue(args)
  {
    LabelSettings(args) + AppendedFlags
  }

  /** The argument list the extractor's parser receives. */
  function Rewritten(args: seq<string>): seq<string>
    requires |args| >= 2 && (IsDescriptionRequest(args) || LabelHasValue(args))
  {
    if IsDescriptionRequest(args) then args
    else WithoutLabel(args) + Appended(args)
  }

  /** A list the script updates in place, as it does `sys.argv`. */
  class ArgumentList {
    var items: seq<string>

    constructor (items: seq<string>)
      ensures this.items == items
    {
      this.items := items;
    }

    /** `list.index(x)`: the first position holding `x`. */
    method Index(x: string) returns (i: nat)
      requires x in items
      ensures i < |items| && items[i] == x && x !in items[..i]
    {
      i := 0;
      while items[i] != x
        invariant i < |items| && x !in items[..i]
        invariant x in items[i..]
        decreases |items| - i
      {
        assert items[i..] == [items[i]] + items[i + 1..];
        assert items[..i + 1] == items[..i] + [items[i]];
        i := i + 1;
      }
    }

    /** `list.pop(i)`: removes the entry at `i` and returns it. */
    method Pop(i: nat) returns (popped: string)
      requires i < |items|
      modifies this
      ensures popped == old(items[i]) && items == old(items[..i] + items[i + 1..])
    {
      popped := items[i];
      items := items[..i] + items[i + 1..];
    }

    /** `list.append(x)`. */
    method Append(x: string)
      modifies this
      ensures items == old(items) + [x]
    {
      items := items + [x];
    }
  }

  /**
   * The `__main__` block up to the call of the extractor's parser. The
   * script reads `sys.argv[1]` and the value after `--label` without
   * checking that they exist, so a caller must supply them.
   */
  method Rewrite(argv: ArgumentList) returns (mode: Mode)
    requires |argv.items| >= 2 && (IsDescriptionRequest(argv.items) || LabelHasValue(argv.items))
    modifies argv
    ensures mode == if IsDescriptionRequest(old(argv.items)) then PrintDescription else Extract
    ensures argv.items == Rewritten(old(argv.items))
  {
    if argv.items[1] == "--xml" || argv.items[1] == "-x" {
      return PrintDescription;
    }
    ghost var args := argv.items;
    TranslateLabel(argv);
    AppendFlags(argv);
    assert argv.items == WithoutLabel(args) + (LabelSettings(args) + AppendedFlags);
    return Extract;
  }

  /** The first `--label` pair, if any, removed and appended again as `--setting=label:<value>`. */
  method TranslateLabel(argv: ArgumentList)
    requires LabelHasValue(argv.items)
    modifies argv
    ensures argv.items == WithoutLabel(old(argv.items)) + LabelSettings(old(argv.items))
  {
    if LabelFlag in argv.items {
      ghost var args := argv.items;
      var labelIndex := argv.Index(LabelFlag);
      IndexOfFirst(args, LabelFlag, labelIndex);
      var labelValue := argv.items[labelIndex + 1];
      var _ := argv.Pop(labelIndex + 1);
      var _ := argv.Pop(labelIndex);
      assert argv.items == WithoutLabel(args);
      argv.Append(LabelSetting + labelValue);
    }
  }

  /** `--format=csv`, `--verbosity=4` and `--setting=correctMask:True` appended in this order. */
  method AppendFlags(argv: ArgumentList)
    modifies argv
    ensures argv.items == old(argv.items) + AppendedFlags
  {
    argv.Append("--format=csv");
    argv.Append("--verbosity=4");
    argv.Append("--setting=correctMask:True");
  }

  // ---------------------------------------------------------------------
  // What the rewrite promises
  // ---------------------------------------------------------------------

  /** Asking for the description leaves argv exactly as it was. */
  lemma DescriptionUntouched(args: seq<string>)
    requires |args| >= 2 && IsDescriptionRequest(args)
    ensures Rewritten(args) == args
  {
  }

  /**
   * Outside XML mode the three fixed flags close the list, in order, and
   * the list grows by two with an old-style label (two entries out, one
   * in) and by three without.
   */
  lemma FlagsAppended(args: seq<string>)
    requires |args| >= 2 && !IsDescriptionRequest(args) && LabelHasValue(args)
    ensures var r := Rewritten(args);
      && |r| == |args| + (if LabelFlag in args then 2 else 3)
      && r[|r| - 3..] == AppendedFlags
  {
    var r := Rewritten(args);
    assert r[|r| - 3..] == Appended(args)[|Appended(args)| - 3..];
  }

  /**
   * The label value is carried over with its text unchanged, as the
   * setting right before the fixed flags.
   */
  lemma LabelCarried(args: seq<string>)
    requires |args| >= 2 && !IsDescriptionRequest(args) && LabelHasValue(args) && LabelFlag in args
    ensures var r := Rewritten(args);
      r[|r| - 4] == LabelSetting + args[IndexOf(args, LabelFlag) + 1]
  {
    FlagsAppended(args);
  }

  /**
   * Every other argument keeps its place relative to the rest: those
   * before the first `--label` stay where they were, those after its
   * value move two places forward, and without a label nothing moves.
   */
  lemma OthersKeepOrder(args: seq<string>)
    requires |args| >= 2 && !IsDescriptionRequest(args) && LabelHasValue(args)
    ensures var r := Rewritten(args);
      if LabelFlag in args then
        var i := IndexOf(args, LabelFlag);
        && (forall j :: 0 <= j < i ==> r[j] == args[j])
        && (forall j :: i + 2 <= j < |args| ==> r[j - 2] == args[j])
      else r[..|args|] == args
  {
    var r := Rewritten(args);
    var w := WithoutLabel(args);
    if LabelFlag in args {
      var i := IndexOf(args, LabelFlag);
      assert w == args[..i] + args[i + 2..];
      forall j | 0 <= j < i ensures r[j] == args[j] {
        assert r[j] == w[j] == args[..i][j];
      }
      forall j | i + 2 <= j < |args| ensures r[j - 2] == args[j] {
        assert r[j - 2] == w[j - 2] == args[i + 2..][j - 2 - i];
      }
    } else {
      assert r[..|args|] == w;
    }
  }

  /** Neither the label setting nor the fixed flags is a `--label`. */
  lemma AppendedNoLabel(args: seq<string>)
    requires LabelHasValue(args)
    ensures Text.Occurrences(Appended(args), LabelFlag) == 0
  {
    var tail := Appended(args);
    forall k | 0 <= k < |tail| ensures tail[k] != LabelFlag {
      if LabelSettings(args) != [] && k == 0 {
        assert tail[0][..|LabelSetting|] == LabelSetting;
      } else {
        assert tail[k] in AppendedFlags;
      }
    }
    Text.OccurrencesNone(tail, LabelFlag);
  }

  /** Removing the first `--label` pair removes one `--label`, two when the value is one too. */
  lemma WithoutLabelCount(args: seq<string>)
    requires LabelHasValue(args) && LabelFlag in args
    ensures Text.Occurrences(WithoutLabel(args), LabelFlag) ==
      Text.Occurrences(args, LabelFlag) - 1 - (if args[IndexOf(args, LabelFlag) + 1] == LabelFlag then 1 else 0)
  {
    var i := IndexOf(args, LabelFlag);
    var before, pair, after := args[..i], args[i..i + 2], args[i + 2..];
    assert args == before + pair + after;
    assert WithoutLabel(args) == before + after;
    Text.OccurrencesAppend(before + pair, after, LabelFlag);
    Text.OccurrencesAppend(before, pair, LabelFlag);
    Text.OccurrencesAppend(before, after, LabelFlag);
    Text.OccurrencesNone(before, LabelFlag);
    assert pair == [LabelFlag] + [args[i + 1]];
    Text.OccurrencesAppend([LabelFlag], [args[i + 1]], LabelFlag);
  }

  /**
   * Only the first `--label` is rewritten: it disappears (with its value,
   * should that be `--label` too) and every later occurrence is still
   * there. Without an old-style label no `--label` appears.
   */
  lemma OnlyFirstLabelRewritten(args: seq<string>)
    requires |args| >= 2 && !IsDescriptionRequest(args) && LabelHasValue(args)
    ensures Text.Occurrences(Rewritten(args), LabelFlag) ==
      if LabelFlag in args then
        Text.Occurrences(args, LabelFlag) - 1 - (if args[IndexOf(args, LabelFlag) + 1] == LabelFlag then 1 else 0)
      else 0
  {
    AppendedNoLabel(args);
    Text.OccurrencesAppend(WithoutLabel(args), Appended(args), LabelFlag);
    if LabelFlag in args {
      WithoutLabelCount(args);
    } else {
      Text.OccurrencesNone(args, LabelFlag);
    }
  }
}
