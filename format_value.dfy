/**
 * The budgeted pretty-printer for step results: a JavaScript value becomes a one-line text
 * that tries to stay within an available length, truncating strings, nested composites and
 * long entry lists with `...`.
 */
module FormatValue {
  import opened Wrappers
  import opened Text

  /** An own enumerable property of an object, in `Object.entries` order. */
  datatype Entry = Entry(key: string, value: JsValue)

  /**
   * A JavaScript value as the printer sees it. Numbers are integers. An object records the
   * name of its constructor (None when it has none), its own entries, and the text its
   * `toString` returns when that method is not `Object.prototype.toString`.
   */
  datatype JsValue =
    | JNum(n: int)
    | JStr(s: string)
    | JBool(b: bool)
    | JUndefined
    | JNull
    | JArr(items: seq<JsValue>)
    | JObj(ctorName: Option<string>, entries: seq<Entry>, customToString: Option<string>)
    | JSymbol(description: string)
    | JFunc(name: string)

  predicate IsComposite(v: JsValue) {
    v.JArr? || v.JObj?
  }

  function Min(a: int, b: int): int {
    if a <= b then a else b
  }

  function Max(a: int, b: int): int {
    if a >= b then a else b
  }

  /** `getClassName`: the constructor's name, unless there is none or it is `Object`. */
  function GetClassName(ctorName: Option<string>): (r: Option<string>)
    ensures r.Some? <==> ctorName.Some? && ctorName.value != "Object"
    ensures r.Some? ==> r.value == ctorName.value
  {
    if ctorName.Some? && ctorName.value != "Object" then ctorName else None
  }

  /** A class name is used only when it is a non-empty string (JavaScript truthiness). */
  predicate HasClassName(v: JsValue)
    requires v.JObj?
  {
    var cn := GetClassName(v.ctorName);
    cn.Some? && cn.value != ""
  }

  function OpenBracket(v: JsValue): string
    requires IsComposite(v)
  {
    if v.JArr? then "[ " else if HasClassName(v) then GetClassName(v.ctorName).value + "(" else "{ "
  }

  function CloseBracket(v: JsValue): string
    requires IsComposite(v)
  {
    if v.JArr? then " ]" else if HasClassName(v) then ")" else " }"
  }

  function EntryCount(v: JsValue): nat
    requires IsComposite(v)
  {
    if v.JArr? then |v.items| else |v.entries|
  }

  function EntryValue(v: JsValue, i: nat): JsValue
    requires IsComposite(v) && i < EntryCount(v)
  {
    if v.JArr? then v.items[i] else v.entries[i].value
  }

  /** Array elements are printed without their index; object entries as `key: value`. */
  function KeyPart(v: JsValue, i: nat): string
    requires IsComposite(v) && i < EntryCount(v)
  {
    if v.JArr? then "" else v.entries[i].key + ": "
  }

  /** `getMinimumValueSize`: the space the first pass reserves for a value. */
  function MinimumValueSize(v: JsValue): nat {
    match v
    case JNum(n) => |IntToString(n)|
    case JStr(s) => Min(|s| + 2, 10)
    case JBool(b) => if b then 4 else 5
    case JUndefined => 9
    case JNull => 4
    case JArr(_) => 8
    case JObj(_, _, _) => 8
    case JSymbol(_) => 12
    case JFunc(_) => 12
  }

  /** A string in quotes, or its first `availableLen - 7` characters followed by `"+...`. */
  function FormatString(s: string, availableLen: int): string {
    if |s| + 2 <= availableLen then "\"" + s + "\""
    else "\"" + Prefix(s, availableLen - 7) + "\"+..."
  }

  /** What both printers do with a value that is neither an array nor an object. */
  function FormatPrimitive(v: JsValue, availableLen: int): string
    requires !IsComposite(v)
  {
    match v
    case JNum(n) => IntToString(n)
    case JStr(s) => FormatString(s, availableLen)
    case JBool(b) => if b then "true" else "false"
    case JUndefined => "undefined"
    case JNull => "null"
    case JSymbol(d) => "Symbol(" + d + ")"
    case JFunc(name) => "[[Function" + (if name != "" then " " + name else "") + "]]"
  }

  /** `formatValue`: the entry point, whose composites may use their own `toString`. */
  function FormatValue(v: JsValue, availableLen: int): string {
    if IsComposite(v) then FormatComposite(v, availableLen) else FormatPrimitive(v, availableLen)
  }

  /** A custom `toString` text as is when it fits, else cut to `availableLen - 3` characters and `...`. */
  function CutText(t: string, availableLen: int): string {
    if |t| <= availableLen then t else Prefix(t, availableLen - 3) + "..."
  }

  /** `formatComposite`: a non-array with its own `toString` prints that text; the rest go to the estimator. */
  function FormatComposite(v: JsValue, availableLen: int): string
    requires IsComposite(v)
  {
    if v.JObj? && v.customToString.Some? then CutText(v.customToString.value, availableLen)
    else CompositeText(v, availableLen, 0, 5)
  }

  /** `formatValueWithDepthControl`: nested values, where composites deeper than the limit collapse. */
  function FormatValueWithDepthControl(v: JsValue, availableLen: int, depth: int, maxDepthForFirst5: int): string
    decreases v, 5
  {
    if IsComposite(v) then
      if depth >= maxDepthForFirst5 then (if v.JArr? then "[...]" else "{...}")
      else CompositeText(v, availableLen, depth, maxDepthForFirst5)
    else FormatPrimitive(v, availableLen)
  }

  /** The first pass's estimate for entry `i`: its key part and its value's minimum size. */
  function EstimatedSize(v: JsValue, i: nat): nat
    requires IsComposite(v) && i < EntryCount(v)
  {
    |KeyPart(v, i)| + MinimumValueSize(EntryValue(v, i))
  }

  /** The estimates of the first `k` entries. */
  function Estimates(v: JsValue, k: nat): (r: seq<nat>)
    requires IsComposite(v) && k <= EntryCount(v)
    ensures |r| == k
  {
    seq(k, j requires 0 <= j < k => EstimatedSize(v, j))
  }

  function Sum(s: seq<nat>): nat {
    if |s| == 0 then 0 else Sum(s[..|s| - 1]) + s[|s| - 1]
  }

  function SumEstimated(v: JsValue, k: nat): nat
    requires IsComposite(v) && k <= EntryCount(v)
  {
    Sum(Estimates(v, k))
  }

  /** The first pass's total: every entry's estimate plus two characters per separator. */
  function TotalEstimated(v: JsValue): int
    requires IsComposite(v)
  {
    SumEstimated(v, EntryCount(v)) + Max(0, (EntryCount(v) - 1) * 2)
  }

  /**
   * The result of `formatCompositeWithEstimation`: brackets around the emitted entries, `...`
   * between the brackets when they alone use up the budget.
   */
  function CompositeText(v: JsValue, availableLen: int, depth: int, maxDepthForFirst5: int): string
    requires IsComposite(v)
    decreases v, 4
  {
    var open := OpenBracket(v);
    var close := CloseBracket(v);
    var overhead := |open| + |close|;
    if availableLen <= overhead then open + "..." + close
    else if EntryCount(v) == 0 then open + close
    else
      var contentBudget := availableLen - overhead;
      open + Emit(v, 0, 0, contentBudget, ExtraPerEntry(v, contentBudget), depth, maxDepthForFirst5) + close
  }

  /** The budget beyond the first pass's total, shared out evenly among the first five entries. */
  function ExtraPerEntry(v: JsValue, contentBudget: int): (extra: int)
    requires IsComposite(v) && EntryCount(v) > 0
    ensures extra >= 0
  {
    Max(0, contentBudget - TotalEstimated(v)) / Min(5, EntryCount(v))
  }

  /** What the second pass does with one entry: the text it appends, the budget used after it, whether it stops. */
  datatype EntryStep = EntryStep(piece: string, used: int, stop: bool)

  /**
   * Entry `i` with `used` characters of the content budget spent: a separator, the key part
   * and the value, or `...` where one of them no longer fits.
   */
  function StepEntry(v: JsValue, i: nat, used: int, contentBudget: int, extraPerEntry: int,
                     depth: int, maxDepthForFirst5: int): EntryStep
    requires IsComposite(v) && i < EntryCount(v)
    decreases v, 2
  {
    if i > 0 && used + 2 > contentBudget then EntryStep("...", used, true)
    else
      var sep := if i > 0 then ", " else "";
      StepKey(v, i, used + |sep|, sep, contentBudget, extraPerEntry, depth, maxDepthForFirst5)
  }

  /** The key part of entry `i` after the text `prefix`, or `...` when it does not fit. */
  function StepKey(v: JsValue, i: nat, used: int, prefix: string, contentBudget: int, extraPerEntry: int,
                   depth: int, maxDepthForFirst5: int): EntryStep
    requires IsComposite(v) && i < EntryCount(v)
    decreases v, 1
  {
    var keyPart := KeyPart(v, i);
    if used + |keyPart| > contentBudget then EntryStep(prefix + "...", used, true)
    else StepValue(v, i, used + |keyPart|, prefix + keyPart, contentBudget, extraPerEntry, depth, maxDepthForFirst5)
  }

  /** The depth a value of entry `i` is printed at: one level deeper for the first five entries. */
  function NextDepth(depth: int, i: nat, maxDepthForFirst5: int): int {
    if depth < maxDepthForFirst5 && i < 5 then depth + 1 else depth
  }

  /**
   * The budget for entry `i`'s value with `used` characters spent: its minimum size plus, for
   * the first five entries, the extra share, but no more than what is left.
   */
  function ValueBudget(v: JsValue, i: nat, used: int, contentBudget: int, extraPerEntry: int): int
    requires IsComposite(v) && i < EntryCount(v)
  {
    Min(MinimumValueSize(EntryValue(v, i)) + (if i < 5 then extraPerEntry else 0), contentBudget - used)
  }

  /**
   * The value of entry `i` after the text `prefix`: the first five entries share the extra
   * budget and may nest one level deeper; `...` when no budget is left for it.
   */
  function StepValue(v: JsValue, i: nat, used: int, prefix: string, contentBudget: int, extraPerEntry: int,
                     depth: int, maxDepthForFirst5: int): EntryStep
    requires IsComposite(v) && i < EntryCount(v)
    decreases v, 0
  {
    var availableForValue := ValueBudget(v, i, used, contentBudget, extraPerEntry);
    if availableForValue <= 0 then EntryStep(prefix + "...", used, true)
    else
      var formatted := FormatValueWithDepthControl(EntryValue(v, i), availableForValue,
                                                   NextDepth(depth, i, maxDepthForFirst5), maxDepthForFirst5);
      EntryStep(prefix + formatted, used + |formatted|, used + |formatted| >= contentBudget)
  }

  /** The text the second pass appends from entry `i` on, until an entry stops it. */
  function Emit(v: JsValue, i: nat, used: int, contentBudget: int, extraPerEntry: int,
                depth: int, maxDepthForFirst5: int): string
    requires IsComposite(v) && i <= EntryCount(v)
    decreases v, 3, EntryCount(v) - i
  {
    if i == EntryCount(v) then ""
    else
      var step := StepEntry(v, i, used, contentBudget, extraPerEntry, depth, maxDepthForFirst5);
      if step.stop then step.piece
      else step.piece + Emit(v, i + 1, step.used, contentBudget, extraPerEntry, depth, maxDepthForFirst5)
  }

  /** The first loop of `formatCompositeWithEstimation`: every entry's estimate and their sum. */
  method EstimateSizes(v: JsValue) returns (estimatedSizes: seq<nat>, totalEstimated: nat)
    requires IsComposite(v)
    ensures estimatedSizes == Estimates(v, EntryCount(v))
    ensures totalEstimated == Sum(estimatedSizes)
  {
    estimatedSizes := [];
    totalEstimated := 0;
    var k := 0;
    while k < EntryCount(v)
      invariant 0 <= k <= EntryCount(v)
      invariant estimatedSizes == Estimates(v, k)
      invariant totalEstimated == Sum(estimatedSizes)
    {
      var entrySize := |KeyPart(v, k)| + MinimumValueSize(EntryValue(v, k));
      EstimatesSnoc(v, k, estimatedSizes, entrySize);
      SumSnoc(estimatedSizes, entrySize);
      estimatedSizes := estimatedSizes + [entrySize];
      totalEstimated := totalEstimated + entrySize;
      k := k + 1;
    }
  }

  lemma EstimatesSnoc(v: JsValue, k: nat, e: seq<nat>, x: nat)
    requires IsComposite(v) && k < EntryCount(v)
    requires e == Estimates(v, k) && x == EstimatedSize(v, k)
    ensures Estimates(v, k + 1) == e + [x]
  {
    forall j | 0 <= j < k + 1
      ensures Estimates(v, k + 1)[j] == (e + [x])[j]
    {
      if j < k {
        assert Estimates(v, k + 1)[j] == EstimatedSize(v, j) == e[j];
      }
    }
  }

  lemma SumSnoc(s: seq<nat>, x: nat)
    ensures Sum(s + [x]) == Sum(s) + x
  {
    assert (s + [x])[..|s|] == s;
  }

  /**
   * One pass of the second loop: the text appended for entry `i` (its separator, key part and
   * value, or `...`), the budget used afterwards, and whether the loop breaks.
   */
  method EmitEntry(v: JsValue, estimatedSize: nat, i: nat, usedBudget: int, contentBudget: int,
                   extraPerEntry: int, depth: int, maxDepthForFirst5: int)
    returns (piece: string, used: int, stop: bool)
    requires IsComposite(v) && i < EntryCount(v)
    requires estimatedSize == EstimatedSize(v, i)
    ensures EntryStep(piece, used, stop)
            == StepEntry(v, i, usedBudget, contentBudget, extraPerEntry, depth, maxDepthForFirst5)
  {
    piece := "";
    used := usedBudget;
    if i > 0 {
      if used + 2 > contentBudget {
        return piece + "...", used, true;
      }
      piece := piece + ", ";
      used := used + 2;
      assert piece == ", ";
    }
    piece, used, stop := EmitKey(v, estimatedSize, i, used, piece, contentBudget, extraPerEntry,
                                 depth, maxDepthForFirst5);
  }

  /** The part of one pass after the separator: the key part, then the value. */
  method EmitKey(v: JsValue, estimatedSize: nat, i: nat, usedBudget: int, prefix: string,
                 contentBudget: int, extraPerEntry: int, depth: int, maxDepthForFirst5: int)
    returns (piece: string, used: int, stop: bool)
    requires IsComposite(v) && i < EntryCount(v)
    requires estimatedSize == EstimatedSize(v, i)
    ensures EntryStep(piece, used, stop)
            == StepKey(v, i, usedBudget, prefix, contentBudget, extraPerEntry, depth, maxDepthForFirst5)
  {
    var keyPart := KeyPart(v, i);
    if usedBudget + |keyPart| > contentBudget {
      return prefix + "...", usedBudget, true;
    }
    piece, used, stop := EmitValue(v, estimatedSize - |keyPart|, i, usedBudget + |keyPart|, prefix + keyPart,
                                   contentBudget, extraPerEntry, depth, maxDepthForFirst5);
  }

  /** The rest of one pass once the key part is appended: the value, or `...` when no budget is left. */
  method EmitValue(v: JsValue, baseValueBudget: int, i: nat, usedBudget: int, prefix: string,
                   contentBudget: int, extraPerEntry: int, depth: int, maxDepthForFirst5: int)
    returns (piece: string, used: int, stop: bool)
    requires IsComposite(v) && i < EntryCount(v)
    requires baseValueBudget == MinimumValueSize(EntryValue(v, i))
    ensures EntryStep(piece, used, stop)
            == StepValue(v, i, usedBudget, prefix, contentBudget, extraPerEntry, depth, maxDepthForFirst5)
  {
    var val := if v.JArr? then v.items[i] else v.entries[i].value;
    var extraForThisEntry := if i < 5 then extraPerEntry else 0;
    var valueBudget := baseValueBudget + extraForThisEntry;
    var availableForValue := Min(valueBudget, contentBudget - usedBudget);
    if availableForValue <= 0 {
      return prefix + "...", usedBudget, true;
    }
    var shouldAllowDeepExpansion := depth < maxDepthForFirst5 && i < 5;
    var formattedValue := FormatValueWithDepthControl(val, availableForValue,
      if shouldAllowDeepExpansion then depth + 1 else depth, maxDepthForFirst5);
    piece := prefix + formattedValue;
    used := usedBudget + |formattedValue|;
    stop := used >= contentBudget;
  }

  /** The second loop of `formatCompositeWithEstimation`: the entries appended after the open bracket. */
  method EmitEntries(v: JsValue, estimatedSizes: seq<nat>, contentBudget: int, extraPerEntry: int,
                     depth: int, maxDepthForFirst5: int) returns (text: string)
    requires IsComposite(v)
    requires estimatedSizes == Estimates(v, EntryCount(v))
    ensures text == Emit(v, 0, 0, contentBudget, extraPerEntry, depth, maxDepthForFirst5)
  {
    ghost var target := Emit(v, 0, 0, contentBudget, extraPerEntry, depth, maxDepthForFirst5);
    text := "";
    var usedBudget := 0;
    var i := 0;
    while i < EntryCount(v)
      invariant 0 <= i <= EntryCount(v)
      invariant text + Emit(v, i, usedBudget, contentBudget, extraPerEntry, depth, maxDepthForFirst5) == target
    {
      var piece, used, stop := EmitEntry(v, estimatedSizes[i], i, usedBudget, contentBudget, extraPerEntry,
                                         depth, maxDepthForFirst5);
      ConcatAssoc(text, piece, Emit(v, i + 1, used, contentBudget, extraPerEntry, depth, maxDepthForFirst5));
      text := text + piece;
      if stop {
        break;
      }
      usedBudget := used;
      i := i + 1;
    }
  }

  lemma ConcatAssoc(a: string, b: string, c: string)
    ensures a + b + c == a + (b + c)
  {
  }

  /**
   * `formatCompositeWithEstimation` as the source writes it: a first loop that estimates every
   * entry's size, then a loop that appends entries until one no longer fits.
   */
  method FormatCompositeWithEstimation(v: JsValue, availableLen: int, depth: int, maxDepthForFirst5: int)
    returns (result: string)
    requires IsComposite(v)
    ensures result == CompositeText(v, availableLen, depth, maxDepthForFirst5)
  {
    var openBracket := OpenBracket(v);
    var closeBracket := CloseBracket(v);
    var bracketOverhead := |openBracket| + |closeBracket|;
    if availableLen <= bracketOverhead {
      return openBracket + "..." + closeBracket;
    }
    var contentBudget := availableLen - bracketOverhead;
    if EntryCount(v) == 0 {
      return openBracket + closeBracket;
    }
    var entries := EstimateAndEmit(v, contentBudget, depth, maxDepthForFirst5);
    result := openBracket + entries + closeBracket;
  }

  /** Both loops of `formatCompositeWithEstimation` for a composite with entries and room inside its brackets. */
  method EstimateAndEmit(v: JsValue, contentBudget: int, depth: int, maxDepthForFirst5: int) returns (entries: string)
    requires IsComposite(v) && EntryCount(v) > 0
    ensures entries == Emit(v, 0, 0, contentBudget, ExtraPerEntry(v, contentBudget), depth, maxDepthForFirst5)
  {
    var estimatedSizes, totalEstimated := EstimateSizes(v);
    var separatorOverhead := Max(0, (EntryCount(v) - 1) * 2);
    assert totalEstimated + separatorOverhead == TotalEstimated(v);
    var extraBudget := Max(0, contentBudget - (totalEstimated + separatorOverhead));
    // The source takes this floor quotient afresh for each of the first five entries.
    var extraPerEntry := extraBudget / Min(5, EntryCount(v));
    entries := EmitEntries(v, estimatedSizes, contentBudget, extraPerEntry, depth, maxDepthForFirst5);
  }

  // ---------------------------------------------------------------------------------------
  // Properties

  /** Numbers print as their decimal text, which reads back to the number, whatever the budget. */
  lemma NumberText(n: int, availableLen: int, otherLen: int, depth: int, maxDepthForFirst5: int)
    ensures IntText(FormatValue(JNum(n), availableLen))
    ensures ParseInt(FormatValue(JNum(n), availableLen)) == n
    ensures FormatValue(JNum(n), availableLen) == FormatValue(JNum(n), otherLen)
    ensures FormatValueWithDepthControl(JNum(n), availableLen, depth, maxDepthForFirst5)
            == FormatValue(JNum(n), availableLen)
  {
    IntToStringRoundTrip(n);
  }

  /** The other scalars print as fixed words, whatever the budget and depth. */
  lemma ScalarWords(availableLen: int, depth: int, maxDepthForFirst5: int)
    ensures FormatValue(JBool(true), availableLen) == "true"
    ensures FormatValue(JBool(false), availableLen) == "false"
    ensures FormatValue(JUndefined, availableLen) == "undefined"
    ensures FormatValue(JNull, availableLen) == "null"
    ensures FormatValueWithDepthControl(JNull, availableLen, depth, maxDepthForFirst5) == "null"
    ensures FormatValueWithDepthControl(JUndefined, availableLen, depth, maxDepthForFirst5) == "undefined"
  {
  }

  /** A string that fits with its quotes is printed verbatim in quotes, within the budget. */
  lemma StringFits(s: string, availableLen: int)
    requires |s| + 2 <= availableLen
    ensures FormatValue(JStr(s), availableLen) == "\"" + s + "\""
    ensures |FormatValue(JStr(s), availableLen)| <= availableLen
  {
  }

  /**
   * A string that does not fit keeps its first `availableLen - 7` characters, followed by
   * `"+...`: one character less than the budget once the budget is at least 7.
   */
  lemma StringTruncated(s: string, availableLen: int)
    requires |s| + 2 > availableLen >= 7
    ensures var r := FormatValue(JStr(s), availableLen);
      && |r| == availableLen - 1
      && r[0] == '"'
      && r[1..availableLen - 6] == s[..availableLen - 7]
      && r[availableLen - 6..] == "\"+..."
  {
    var r := FormatValue(JStr(s), availableLen);
    var k := availableLen - 7;
    assert r == "\"" + s[..k] + "\"+...";
  }

  /** Below 7 characters no part of the string is shown, and the budget is exceeded. */
  lemma StringTooNarrow(s: string, availableLen: int)
    requires |s| + 2 > availableLen && availableLen < 7
    ensures FormatValue(JStr(s), availableLen) == "\"\"+..."
    ensures availableLen < 6 ==> |FormatValue(JStr(s), availableLen)| > availableLen
  {
  }

  /**
   * An object's own `toString` text is kept when it fits; otherwise it is cut so that the
   * result, ending in `...`, has exactly the budget's length (for budgets of at least 3).
   */
  lemma CustomToStringCut(v: JsValue, availableLen: int)
    requires v.JObj? && v.customToString.Some?
    ensures var t, r := v.customToString.value, FormatValue(v, availableLen);
      && (|t| <= availableLen ==> r == t)
      && (|t| > availableLen >= 3 ==>
            |r| == availableLen && r[..availableLen - 3] == t[..availableLen - 3] && r[availableLen - 3..] == "...")
      && (|t| > availableLen && availableLen < 3 ==> r == "...")
  {
    var t := v.customToString.value;
    if |t| > availableLen >= 3 {
      assert FormatValue(v, availableLen) == t[..availableLen - 3] + "...";
    }
  }

  /** Nested objects are printed from their entries: their own `toString` is used only at the top. */
  lemma NestedIgnoresCustomToString(v: JsValue, availableLen: int, depth: int, maxDepthForFirst5: int)
    requires v.JObj? && depth < maxDepthForFirst5
    ensures FormatValueWithDepthControl(v, availableLen, depth, maxDepthForFirst5)
            == CompositeText(v, availableLen, depth, maxDepthForFirst5)
  {
  }

  /** Arrays use `[ ... ]`, class instances `Name( ... )`, every other object `{ ... }`. */
  lemma BracketsByKind(v: JsValue)
    requires IsComposite(v)
    ensures v.JArr? ==> OpenBracket(v) == "[ " && CloseBracket(v) == " ]"
    ensures v.JObj? && v.ctorName.Some? && v.ctorName.value !in {"", "Object"} ==>
              OpenBracket(v) == v.ctorName.value + "(" && CloseBracket(v) == ")"
    ensures v.JObj? && (v.ctorName.None? || v.ctorName.value in {"", "Object"}) ==>
              OpenBracket(v) == "{ " && CloseBracket(v) == " }"
  {
  }

  /**
   * Every composite text is enclosed in its brackets; when the brackets alone use up the
   * budget it is `open...close`, and a composite without entries is `open` + `close`.
   */
  lemma CompositeEnclosed(v: JsValue, availableLen: int, depth: int, maxDepthForFirst5: int)
    requires IsComposite(v)
    ensures var r, open, close := CompositeText(v, availableLen, depth, maxDepthForFirst5), OpenBracket(v), CloseBracket(v);
      && |r| >= |open| + |close|
      && r[..|open|] == open
      && r[|r| - |close|..] == close
      && (availableLen <= |open| + |close| ==> r == open + "..." + close)
      && (availableLen > |open| + |close| && EntryCount(v) == 0 ==> r == open + close)
  {
    var r := CompositeText(v, availableLen, depth, maxDepthForFirst5);
    var open, close := OpenBracket(v), CloseBracket(v);
    var middle: string :| r == open + middle + close;
    assert r[..|open|] == open;
    assert r[|r| - |close|..] == close;
  }

  /** A composite deeper than the limit collapses to `[...]` or `{...}`, whatever the budget. */
  lemma DepthCutoff(v: JsValue, availableLen: int, depth: int, maxDepthForFirst5: int)
    requires IsComposite(v) && depth >= maxDepthForFirst5
    ensures FormatValueWithDepthControl(v, availableLen, depth, maxDepthForFirst5)
            == if v.JArr? then "[...]" else "{...}"
  {
  }

  /**
   * The first pass's minimum size is the exact printed length of numbers, booleans,
   * `undefined` and `null`, a lower bound for functions, and for strings that fit.
   */
  lemma MinimumSizeOfScalars(v: JsValue, availableLen: int, depth: int, maxDepthForFirst5: int)
    requires !IsComposite(v) && !v.JSymbol?
    ensures var r := FormatValueWithDepthControl(v, availableLen, depth, maxDepthForFirst5);
      && (v.JNum? || v.JBool? || v.JUndefined? || v.JNull? ==> |r| == MinimumValueSize(v))
      && (v.JFunc? ==> |r| >= MinimumValueSize(v))
      && (v.JStr? && |v.s| + 2 <= availableLen ==> |r| >= MinimumValueSize(v))
  {
  }

  // The shape of the entries part

  function Separator(i: nat): string {
    if i > 0 then ", " else ""
  }

  /** Entries `i`, `i + 1`, ... with the value texts `vals`, each after its separator and key part. */
  function EntryTexts(v: JsValue, i: nat, vals: seq<string>): string
    requires IsComposite(v) && i + |vals| <= EntryCount(v)
    decreases |vals|
  {
    if |vals| == 0 then ""
    else Separator(i) + KeyPart(v, i) + vals[0] + EntryTexts(v, i + 1, vals[1..])
  }

  /** `s` is how entry `j`'s value prints at its depth with some positive budget. */
  ghost predicate PrintedValue(v: JsValue, j: nat, s: string, depth: int, maxDepthForFirst5: int)
    requires IsComposite(v) && j < EntryCount(v)
  {
    exists b: int :: b > 0 && s == FormatValueWithDepthControl(EntryValue(v, j), b, NextDepth(depth, j, maxDepthForFirst5), maxDepthForFirst5)
  }

  /**
   * What the second pass appends from entry `i` on, with `used` of `contentBudget` spent: the
   * entries `i` up to `k` in full, then `tail`. A non-empty tail is `...`, possibly after the
   * next entry's separator and key part, and comes only while entries remain and budget is
   * left; an empty tail means every entry was printed or the budget is used up.
   */
  ghost predicate EmitParts(v: JsValue, i: nat, used: int, contentBudget: int, depth: int, maxDepthForFirst5: int,
                            k: nat, vals: seq<string>, tail: string)
    requires IsComposite(v) && i <= EntryCount(v)
  {
    && i <= k <= EntryCount(v) && |vals| == k - i
    && (forall j :: 0 <= j < |vals| ==> PrintedValue(v, i + j, vals[j], depth, maxDepthForFirst5))
    && (tail == "" ==> k == EntryCount(v) || used + |EntryTexts(v, i, vals)| >= contentBudget)
    && (tail != "" ==>
          && k < EntryCount(v)
          && used + |EntryTexts(v, i, vals)| < contentBudget
          && (tail == "..." || tail == Separator(k) + "..." || tail == Separator(k) + KeyPart(v, k) + "..."))
  }

  /**
   * One entry of the second pass: either it stops with `...` (after the separator, or after the
   * separator and key part) and spends nothing, or it prints the separator, the key part and a
   * printed value, spends their length, and stops exactly when the budget is used up.
   */
  lemma StepShape(v: JsValue, i: nat, used: int, contentBudget: int, extraPerEntry: int,
                  depth: int, maxDepthForFirst5: int)
    returns (printed: bool, formatted: string)
    requires IsComposite(v) && i < EntryCount(v)
    ensures var st := StepEntry(v, i, used, contentBudget, extraPerEntry, depth, maxDepthForFirst5);
      && (!printed ==>
            && st.stop
            && (st.piece == "..." || st.piece == Separator(i) + "..." || st.piece == Separator(i) + KeyPart(v, i) + "..."))
      && (printed ==>
            && PrintedValue(v, i, formatted, depth, maxDepthForFirst5)
            && st.piece == Separator(i) + KeyPart(v, i) + formatted
            && st.used == used + |st.piece|
            && st.stop == (st.used >= contentBudget))
  {
    printed, formatted := false, "";
    var st := StepEntry(v, i, used, contentBudget, extraPerEntry, depth, maxDepthForFirst5);
    if i > 0 && used + 2 > contentBudget {
      assert st == EntryStep("...", used, true);
      return;
    }
    var sep, key := Separator(i), KeyPart(v, i);
    var used2 := used + |sep| + |key|;
    assert st == StepKey(v, i, used + |sep|, sep, contentBudget, extraPerEntry, depth, maxDepthForFirst5);
    if used2 > contentBudget {
      assert st == EntryStep(sep + "...", used + |sep|, true);
      return;
    }
    assert st == StepValue(v, i, used2, sep + key, contentBudget, extraPerEntry, depth, maxDepthForFirst5);
    var availableForValue := ValueBudget(v, i, used2, contentBudget, extraPerEntry);
    if availableForValue <= 0 {
      assert st == EntryStep(sep + key + "...", used2, true);
      return;
    }
    printed := true;
    formatted := FormatValueWithDepthControl(EntryValue(v, i), availableForValue,
                                             NextDepth(depth, i, maxDepthForFirst5), maxDepthForFirst5);
    assert st == EntryStep(sep + key + formatted, used2 + |formatted|, used2 + |formatted| >= contentBudget);
  }

  /** The budget inside a composite's brackets. */
  function InnerBudget(v: JsValue, availableLen: int): int
    requires IsComposite(v)
  {
    availableLen - |OpenBracket(v)| - |CloseBracket(v)|
  }

  /** The second pass from entry `i` on has the shape `EmitParts` describes. */
  lemma {:induction false} EmitShape(v: JsValue, i: nat, used: int, contentBudget: int, extraPerEntry: int,
                                     depth: int, maxDepthForFirst5: int)
    returns (k: nat, vals: seq<string>, tail: string)
    requires IsComposite(v) && i <= EntryCount(v) && used < contentBudget
    ensures EmitParts(v, i, used, contentBudget, depth, maxDepthForFirst5, k, vals, tail)
    ensures Emit(v, i, used, contentBudget, extraPerEntry, depth, maxDepthForFirst5) == EntryTexts(v, i, vals) + tail
    decreases EntryCount(v) - i
  {
    k, vals, tail := i, [], "";
    assert EntryTexts(v, i, []) == "";
    if i == EntryCount(v) {
      return;
    }
    var st := StepEntry(v, i, used, contentBudget, extraPerEntry, depth, maxDepthForFirst5);
    var printed, formatted := StepShape(v, i, used, contentBudget, extraPerEntry, depth, maxDepthForFirst5);
    if !printed {
      tail := st.piece;
      return;
    }
    assert EntryTexts(v, i, [formatted]) == st.piece + EntryTexts(v, i + 1, []);
    assert EntryTexts(v, i, [formatted]) == st.piece;
    if st.stop {
      k, vals := i + 1, [formatted];
      return;
    }
    var k', vals', tail' := EmitShape(v, i + 1, st.used, contentBudget, extraPerEntry, depth, maxDepthForFirst5);
    PartsCons(v, i, used, contentBudget, depth, maxDepthForFirst5, formatted, k', vals', tail');
    k, vals, tail := k', [formatted] + vals', tail';
    assert Emit(v, i, used, contentBudget, extraPerEntry, depth, maxDepthForFirst5)
           == st.piece + Emit(v, i + 1, st.used, contentBudget, extraPerEntry, depth, maxDepthForFirst5);
    ConcatAssoc(st.piece, EntryTexts(v, i + 1, vals'), tail');
  }

  /** Entry `i` printed in full in front of the parts from entry `i + 1` on gives the parts from entry `i` on. */
  lemma PartsCons(v: JsValue, i: nat, used: int, contentBudget: int, depth: int, maxDepthForFirst5: int,
                  formatted: string, k: nat, vals: seq<string>, tail: string)
    requires IsComposite(v) && i < EntryCount(v)
    requires PrintedValue(v, i, formatted, depth, maxDepthForFirst5)
    requires used + |Separator(i) + KeyPart(v, i) + formatted| < contentBudget
    requires EmitParts(v, i + 1, used + |Separator(i) + KeyPart(v, i) + formatted|, contentBudget, depth,
                       maxDepthForFirst5, k, vals, tail)
    ensures EmitParts(v, i, used, contentBudget, depth, maxDepthForFirst5, k, [formatted] + vals, tail)
    ensures EntryTexts(v, i, [formatted] + vals) == Separator(i) + KeyPart(v, i) + formatted + EntryTexts(v, i + 1, vals)
  {
    var all := [formatted] + vals;
    assert all[1..] == vals;
    forall j | 0 <= j < |all|
      ensures PrintedValue(v, i + j, all[j], depth, maxDepthForFirst5)
    {
      if j > 0 {
        assert all[j] == vals[j - 1];
      }
    }
  }

  /**
   * A composite with room inside its brackets prints its open bracket, its first `k` entries in
   * full and comma-separated, then `...` (possibly after the next separator and key part) or
   * nothing, then its close bracket. The `...` comes only when entries are left out; when
   * entries are left out without it, the entries printed use up the budget inside the brackets.
   */
  lemma CompositeShape(v: JsValue, availableLen: int, depth: int, maxDepthForFirst5: int)
    requires IsComposite(v) && availableLen > |OpenBracket(v)| + |CloseBracket(v)|
    ensures exists k: nat, vals: seq<string>, tail: string ::
        && EmitParts(v, 0, 0, InnerBudget(v, availableLen), depth, maxDepthForFirst5, k, vals, tail)
        && CompositeText(v, availableLen, depth, maxDepthForFirst5)
           == OpenBracket(v) + EntryTexts(v, 0, vals) + tail + CloseBracket(v)
  {
    var contentBudget := InnerBudget(v, availableLen);
    var open, close := OpenBracket(v), CloseBracket(v);
    var k: nat, vals: seq<string>, tail: string := 0, [], "";
    if EntryCount(v) == 0 {
      assert EntryTexts(v, 0, []) == "";
      assert CompositeText(v, availableLen, depth, maxDepthForFirst5) == open + close;
      assert open + EntryTexts(v, 0, vals) + tail == open;
    } else {
      k, vals, tail := EmitShape(v, 0, 0, contentBudget, ExtraPerEntry(v, contentBudget), depth, maxDepthForFirst5);
      var middle := Emit(v, 0, 0, contentBudget, ExtraPerEntry(v, contentBudget), depth, maxDepthForFirst5);
      assert CompositeText(v, availableLen, depth, maxDepthForFirst5) == open + middle + close;
      ConcatAssoc(open, EntryTexts(v, 0, vals), tail);
    }
    assert EmitParts(v, 0, 0, contentBudget, depth, maxDepthForFirst5, k, vals, tail);
  }

  // Arrays of numbers that fit

  predicate AllNumbers(items: seq<JsValue>) {
    forall j :: 0 <= j < |items| ==> items[j].JNum?
  }

  function NumberTexts(items: seq<JsValue>): (texts: seq<string>)
    requires AllNumbers(items)
    ensures |texts| == |items|
  {
    seq(|items|, j requires 0 <= j < |items| => IntToString(items[j].n))
  }

  lemma JoinNonEmpty(parts: seq<string>, sep: string)
    requires |parts| > 0 && |parts[0]| > 0
    ensures |Join(parts, sep)| >= |parts[0]|
  {
  }

  /** One entry of an array of numbers with room for it: its separator and its full text. */
  lemma NumberStep(v: JsValue, i: nat, used: int, contentBudget: int, extraPerEntry: int,
                   depth: int, maxDepthForFirst5: int)
    requires v.JArr? && i < |v.items| && v.items[i].JNum? && extraPerEntry >= 0
    requires used + (if i > 0 then 2 else 0) + |IntToString(v.items[i].n)| <= contentBudget
    ensures var sep, t := (if i > 0 then ", " else ""), IntToString(v.items[i].n);
      StepEntry(v, i, used, contentBudget, extraPerEntry, depth, maxDepthForFirst5)
      == EntryStep(sep + t, used + |sep| + |t|, used + |sep| + |t| >= contentBudget)
  {
    var sep := if i > 0 then ", " else "";
    var used2 := used + |sep|;
    assert KeyPart(v, i) == "" && sep + KeyPart(v, i) == sep;
    assert StepKey(v, i, used2, sep, contentBudget, extraPerEntry, depth, maxDepthForFirst5)
           == StepValue(v, i, used2, sep, contentBudget, extraPerEntry, depth, maxDepthForFirst5);
    var t := IntToString(v.items[i].n);
    var b := ValueBudget(v, i, used2, contentBudget, extraPerEntry);
    assert EntryValue(v, i) == v.items[i] && MinimumValueSize(v.items[i]) == |t|;
    assert b >= |t| > 0;
    assert FormatValueWithDepthControl(v.items[i], b, NextDepth(depth, i, maxDepthForFirst5), maxDepthForFirst5) == t;
  }

  /** From entry `i` on, an array of numbers with room for all of them prints each in full. */
  lemma {:induction false} EmitNumbers(v: JsValue, i: nat, used: int, contentBudget: int, extraPerEntry: int,
                                       depth: int, maxDepthForFirst5: int)
    requires v.JArr? && AllNumbers(v.items) && i < |v.items| && extraPerEntry >= 0
    requires used + (if i > 0 then 2 else 0) + |Join(NumberTexts(v.items)[i..], ", ")| <= contentBudget
    ensures Emit(v, i, used, contentBudget, extraPerEntry, depth, maxDepthForFirst5)
            == (if i > 0 then ", " else "") + Join(NumberTexts(v.items)[i..], ", ")
    decreases |v.items| - i
  {
    var texts := NumberTexts(v.items);
    var t := texts[i];
    var sep := if i > 0 then ", " else "";
    var used2 := used + |sep|;
    JoinNonEmpty(texts[i..], ", ");
    NumberStep(v, i, used, contentBudget, extraPerEntry, depth, maxDepthForFirst5);
    var next := Emit(v, i + 1, used2 + |t|, contentBudget, extraPerEntry, depth, maxDepthForFirst5);
    if i == |v.items| - 1 {
      assert texts[i..] == [t];
      assert next == "";
      assert Join(texts[i..], ", ") == t;
      assert Emit(v, i, used, contentBudget, extraPerEntry, depth, maxDepthForFirst5) == sep + t;
    } else {
      assert texts[i..][1..] == texts[i + 1..];
      var rest := Join(texts[i + 1..], ", ");
      assert Join(texts[i..], ", ") == t + ", " + rest;
      EmitNumbers(v, i + 1, used2 + |t|, contentBudget, extraPerEntry, depth, maxDepthForFirst5);
      assert Emit(v, i, used, contentBudget, extraPerEntry, depth, maxDepthForFirst5) == (sep + t) + next;
      assert next == ", " + rest;
      ConcatAssoc(sep, t, ", " + rest);
      ConcatAssoc(t, ", ", rest);
      assert Join(texts[i..], ", ") == t + (", " + rest);
    }
  }

  /** An array of numbers whose full text fits the budget is printed in full, comma-separated. */
  lemma NumberArrayFits(items: seq<JsValue>, availableLen: int, depth: int, maxDepthForFirst5: int)
    requires AllNumbers(items) && |items| > 0
    requires 4 + |Join(NumberTexts(items), ", ")| <= availableLen
    ensures CompositeText(JArr(items), availableLen, depth, maxDepthForFirst5)
            == "[ " + Join(NumberTexts(items), ", ") + " ]"
  {
    var v := JArr(items);
    JoinNonEmpty(NumberTexts(items), ", ");
    var contentBudget := availableLen - 4;
    assert OpenBracket(v) == "[ " && CloseBracket(v) == " ]";
    assert NumberTexts(items)[0..] == NumberTexts(items);
    EmitNumbers(v, 0, 0, contentBudget, ExtraPerEntry(v, contentBudget), depth, maxDepthForFirst5);
  }

  /** At the top level, an array of numbers that fits is printed in full. */
  lemma FormatNumberArray(items: seq<JsValue>, availableLen: int)
    requires AllNumbers(items) && |items| > 0
    requires 4 + |Join(NumberTexts(items), ", ")| <= availableLen
    ensures FormatValue(JArr(items), availableLen) == "[ " + Join(NumberTexts(items), ", ") + " ]"
  {
    NumberArrayFits(items, availableLen, 0, 5);
  }
}
