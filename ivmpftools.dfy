/**
 * `ivmpf_disassembler(ivmpf)`: turn an mpmath interval `iv.mpf`, or a
 * (nested) list of them, into arrays of endpoint pairs. Anything with a
 * length is walked element by element; anything else (or a list one of
 * whose elements fails) is handled through its printed form `str(ivmpf)`:
 * drop the brackets, remove the spaces, split at the first comma and parse
 * both halves with `mp.mpf`. A list whose element outputs numpy cannot
 * stack into one object array (line 32) raises too, and falls back the
 * same way.
 */
module IvmpfTools {
  import opened Wrappers

  /**
   * The input: an interval, given by the texts mpmath prints for its two
   * endpoints (`str` of it is `"[lower, upper]"`), or a list of inputs.
   */
  datatype Ivmpf = Interval(lower: string, upper: string) | Items(elems: seq<Ivmpf>)

  /** The output: the `[lower, upper]` array of one interval, or the object array of the elements' outputs. */
  datatype Disassembly = Pair(lower: real, upper: real) | Array(items: seq<Disassembly>)

  /** `mp.mpf(text)` raises ValueError on text it cannot parse. */
  datatype DisassembleError = NotANumber

  /**
   * What the function takes from Python, mpmath and numpy: `str` of a list
   * of inputs, `mp.mpf(text)` (None where it raises), and whether
   * `np.array(output, dtype=object)` accepts the element outputs (false
   * where it raises).
   */
  datatype Conversions = Conversions(listStr: seq<Ivmpf> -> string, mpf: string -> Option<real>,
                                     stacks: seq<Disassembly> -> bool)

  /** The numpy shape of an output: `(2,)` for a pair, and one more leading axis for outputs of one common shape. */
  function Shape(o: Disassembly): seq<nat>
    decreases o
  {
    match o
    case Pair(_, _) => [2]
    case Array(items) =>
      if |items| > 0 && forall i :: 0 <= i < |items| ==> Shape(items[i]) == Shape(items[0]) then
        [|items|] + Shape(items[0])
      else
        [|items|]
  }

  /** All outputs have the same shape. */
  predicate Uniform(outputs: seq<Disassembly>)
  {
    forall i :: 0 <= i < |outputs| ==> Shape(outputs[i]) == Shape(outputs[0])
  }

  /** numpy stacks outputs of one common shape into a single array (the case where it cannot fail). */
  ghost predicate StacksUniform(f: Conversions)
  {
    forall outputs :: Uniform(outputs) ==> f.stacks(outputs)
  }

  /** `str(ivmpf)`. */
  function Str(v: Ivmpf, f: Conversions): string
  {
    match v
    case Interval(lower, upper) => "[" + lower + ", " + upper + "]"
    case Items(elems) => f.listStr(elems)
  }

  /** `s[1:-1]`: without the first and the last character; empty for fewer than two characters. */
  function DropEnds(s: string): (r: string)
    ensures |s| >= 2 ==> |r| == |s| - 2 && forall i :: 0 <= i < |r| ==> r[i] == s[i + 1]
    ensures |s| < 2 ==> r == ""
  {
    if |s| >= 2 then s[1..|s| - 1] else ""
  }

  /** `s.replace(' ', '')`. */
  function RemoveSpaces(s: string): string
  {
    if |s| == 0 then "" else (if s[0] == ' ' then "" else [s[0]]) + RemoveSpaces(s[1..])
  }

  /** `s.find(c)`: the index of the first `c`, or -1 when there is none. */
  function Find(s: string, c: char): (r: int)
    ensures -1 <= r < |s|
    ensures r == -1 <==> c !in s
    ensures r >= 0 ==> s[r] == c && c !in s[..r]
  {
    if |s| == 0 then -1
    else if s[0] == c then 0
    else
      var k := Find(s[1..], c);
      assert s[1..][..k + 1] == s[..k + 2][1..];
      if k == -1 then -1 else k + 1
  }

  /** `s[:k]` for `-1 <= k`: with `k == -1` Python counts from the end and drops the last character. */
  function Before(s: string, k: int): (r: string)
    requires -1 <= k < |s|
  {
    if k >= 0 then s[..k] else if |s| > 0 then s[..|s| - 1] else ""
  }

  /** Lines 34-35 and the slices of line 36: the texts handed to the two `mp.mpf` calls. */
  function SplitText(text: string): (string, string)
  {
    var sep := Find(text, ',');
    (Before(text, sep), text[sep + 1..])
  }

  /** The `except` branch: parse the two halves of the printed value. */
  function FromText(v: Ivmpf, f: Conversions): Result<Disassembly, DisassembleError>
  {
    var (lower, upper) := SplitText(RemoveSpaces(DropEnds(Str(v, f))));
    match (f.mpf(lower), f.mpf(upper))
    case (Some(a), Some(b)) => Success(Pair(a, b))
    case _ => Failure(NotANumber)
  }

  /**
   * The whole function: an exception raised by any element, or by
   * `np.array` at line 32, sends the list itself to the `except` branch.
   */
  function Disassembled(v: Ivmpf, f: Conversions): Result<Disassembly, DisassembleError>
    decreases v
  {
    match v
    case Interval(_, _) => FromText(v, f)
    case Items(elems) =>
      if forall i :: 0 <= i < |elems| ==> Disassembled(elems[i], f).Success? then
        var outputs := seq(|elems|, i requires 0 <= i < |elems| => Disassembled(elems[i], f).value);
        if f.stacks(outputs) then Success(Array(outputs)) else FromText(v, f)
      else
        FromText(v, f)
  }

  /** `ivmpf_disassembler(ivmpf)`: the loop of lines 28-32 with the fallback of lines 33-36. */
  method Disassemble(v: Ivmpf, f: Conversions) returns (r: Result<Disassembly, DisassembleError>)
    ensures r == Disassembled(v, f)
    decreases v
  {
    match v
    case Interval(_, _) =>
      r := FromText(v, f);
    case Items(elems) =>
      var output: seq<Disassembly> := [];
      for i := 0 to |elems|
        invariant |output| == i
        invariant Mapped(elems, output, f)
      {
        var child := Disassemble(elems[i], f);
        if child.Failure? {
          r := FromText(v, f);
          FailingElement(elems, i, f);
          return;
        }
        MappedSnoc(elems, output, child.value, f);
        output := output + [child.value];
      }
      AllElements(elems, output, f);
      if f.stacks(output) {
        r := Success(Array(output));
      } else {
        r := FromText(v, f);
      }
  }

  /** The outputs of the first `|output|` elements, none of which failed. */
  predicate Mapped(elems: seq<Ivmpf>, output: seq<Disassembly>, f: Conversions)
    requires |output| <= |elems|
  {
    forall k :: 0 <= k < |output| ==> Disassembled(elems[k], f) == Success(output[k])
  }

  lemma MappedSnoc(elems: seq<Ivmpf>, output: seq<Disassembly>, o: Disassembly, f: Conversions)
    requires |output| < |elems| && Mapped(elems, output, f)
    requires Disassembled(elems[|output|], f) == Success(o)
    ensures Mapped(elems, output + [o], f)
  {
    var all := output + [o];
    assert forall k :: 0 <= k < |output| ==> all[k] == output[k];
    assert all[|output|] == o;
  }

  /** One failing element sends the whole list to the `except` branch. */
  lemma FailingElement(elems: seq<Ivmpf>, i: nat, f: Conversions)
    requires i < |elems| && Disassembled(elems[i], f).Failure?
    ensures Disassembled(Items(elems), f) == FromText(Items(elems), f)
  {
  }

  /**
   * When every element succeeds the list maps to the array of their
   * outputs if numpy stacks them, and goes to the `except` branch if not.
   */
  lemma AllElements(elems: seq<Ivmpf>, output: seq<Disassembly>, f: Conversions)
    requires |output| == |elems| && Mapped(elems, output, f)
    ensures f.stacks(output) ==> Disassembled(Items(elems), f) == Success(Array(output))
    ensures !f.stacks(output) ==> Disassembled(Items(elems), f) == FromText(Items(elems), f)
  {
    var mapped := seq(|elems|, i requires 0 <= i < |elems| => Disassembled(elems[i], f).value);
    assert mapped == output;
  }

  // ---------------------------------------------------------------------
  // Properties

  /** Removing the spaces keeps every other character, in order, and leaves no space. */
  lemma {:induction false} RemoveSpacesMembership(s: string)
    ensures ' ' !in RemoveSpaces(s)
    ensures forall c :: c in RemoveSpaces(s) <==> c in s && c != ' '
  {
    if |s| > 0 {
      RemoveSpacesMembership(s[1..]);
      assert forall c :: c in s <==> c == s[0] || c in s[1..] by {
        assert s == [s[0]] + s[1..];
      }
    }
  }

  lemma {:induction false} RemoveSpacesNone(s: string)
    requires ' ' !in s
    ensures RemoveSpaces(s) == s
  {
    if |s| > 0 {
      assert s[0] in s;
      assert forall c :: c in s[1..] ==> c in s;
      RemoveSpacesNone(s[1..]);
      assert s == [s[0]] + s[1..];
    }
  }

  lemma {:induction false} RemoveSpacesAppend(s: string, t: string)
    ensures RemoveSpaces(s + t) == RemoveSpaces(s) + RemoveSpaces(t)
  {
    if |s| > 0 {
      assert (s + t)[1..] == s[1..] + t;
      RemoveSpacesAppend(s[1..], t);
    } else {
      assert s + t == t;
    }
  }

  /** Text without a comma: `find` gives -1, so the lower half loses its last character and the upper half is the whole text. */
  lemma NoComma(text: string)
    requires ',' !in text
    ensures SplitText(text) == (if |text| > 0 then text[..|text| - 1] else "", text)
  {
    assert text[0..] == text;
  }

  /** Text with a comma splits around the first one. */
  lemma FirstComma(lower: string, upper: string)
    requires ',' !in lower
    ensures SplitText(lower + "," + upper) == (lower, upper)
  {
    var text := lower + "," + upper;
    assert text[..|lower|] == lower;
    assert text[|lower|] == ',';
    var k := Find(text, ',');
    assert text[k + 1..] == upper;
  }

  /** Endpoint text as mpmath prints it: no comma and no space. */
  predicate Printable(s: string)
  {
    ',' !in s && ' ' !in s
  }

  /** The printed form of an interval splits back into the texts of its two endpoints. */
  lemma IntervalRoundTrip(lower: string, upper: string)
    requires Printable(lower) && Printable(upper)
    ensures SplitText(RemoveSpaces(DropEnds("[" + lower + ", " + upper + "]"))) == (lower, upper)
  {
    var printed := "[" + lower + ", " + upper + "]";
    var inner := lower + (", " + upper);
    assert printed == ("[" + inner) + "]";
    assert DropEnds(printed) == inner;
    RemoveSpacesAppend(lower, ", " + upper);
    RemoveSpacesAppend(", ", upper);
    RemoveSpacesNone(lower);
    RemoveSpacesNone(upper);
    assert RemoveSpaces(", ") == ",";
    assert RemoveSpaces(inner) == lower + "," + upper;
    FirstComma(lower, upper);
  }

  /** The shape the output of `v` has when nothing falls back: `Shape` read off the input. */
  function InShape(v: Ivmpf): seq<nat>
    decreases v
  {
    match v
    case Interval(_, _) => [2]
    case Items(elems) =>
      if |elems| > 0 && forall i :: 0 <= i < |elems| ==> InShape(elems[i]) == InShape(elems[0]) then
        [|elems|] + InShape(elems[0])
      else
        [|elems|]
  }

  /**
   * Every interval is printable and parses at both ends, and the elements
   * of every list have one common shape, so numpy can stack them.
   */
  predicate WellFormed(v: Ivmpf, f: Conversions)
    decreases v
  {
    match v
    case Interval(lower, upper) => Printable(lower) && Printable(upper) && f.mpf(lower).Some? && f.mpf(upper).Some?
    case Items(elems) =>
      (forall i :: 0 <= i < |elems| ==> WellFormed(elems[i], f)) &&
      (forall i :: 0 <= i < |elems| ==> InShape(elems[i]) == InShape(elems[0]))
  }

  /** `o` has the nesting of `v`, with each interval replaced by its parsed endpoints. */
  predicate Mirrors(v: Ivmpf, o: Disassembly, f: Conversions)
    decreases v
  {
    match v
    case Interval(lower, upper) => o.Pair? && f.mpf(lower) == Some(o.lower) && f.mpf(upper) == Some(o.upper)
    case Items(elems) =>
      o.Array? && |o.items| == |elems| && forall i :: 0 <= i < |elems| ==> Mirrors(elems[i], o.items[i], f)
  }

  /** An output that mirrors its input has the input's shape. */
  lemma {:induction false} MirrorsShape(v: Ivmpf, o: Disassembly, f: Conversions)
    requires Mirrors(v, o, f)
    ensures Shape(o) == InShape(v)
    decreases v
  {
    match v
    case Interval(_, _) =>
    case Items(elems) =>
      forall i | 0 <= i < |elems| ensures Shape(o.items[i]) == InShape(elems[i]) {
        MirrorsShape(elems[i], o.items[i], f);
      }
  }

  /**
   * A well-formed input is disassembled without falling back, given that
   * numpy stacks outputs of one shape: lists map element by element,
   * nesting is preserved, and each interval becomes its `[lower, upper]`
   * pair.
   */
  lemma {:induction false} WellFormedMirrored(v: Ivmpf, f: Conversions)
    requires WellFormed(v, f) && StacksUniform(f)
    ensures Disassembled(v, f).Success? && Mirrors(v, Disassembled(v, f).value, f)
    decreases v
  {
    match v
    case Interval(lower, upper) =>
      IntervalRoundTrip(lower, upper);
    case Items(elems) =>
      forall i | 0 <= i < |elems|
        ensures Disassembled(elems[i], f).Success? && Mirrors(elems[i], Disassembled(elems[i], f).value, f)
      {
        WellFormedMirrored(elems[i], f);
      }
      ListMirrored(elems, f);
  }

  /** The step of WellFormedMirrored for a list whose elements all mirror their outputs. */
  lemma ListMirrored(elems: seq<Ivmpf>, f: Conversions)
    requires StacksUniform(f)
    requires forall i :: 0 <= i < |elems| ==> InShape(elems[i]) == InShape(elems[0])
    requires forall i :: 0 <= i < |elems| ==>
               Disassembled(elems[i], f).Success? && Mirrors(elems[i], Disassembled(elems[i], f).value, f)
    ensures Disassembled(Items(elems), f).Success? && Mirrors(Items(elems), Disassembled(Items(elems), f).value, f)
  {
    var outputs := seq(|elems|, i requires 0 <= i < |elems| => Disassembled(elems[i], f).value);
    assert Mapped(elems, outputs, f);
    forall i | 0 <= i < |elems| ensures Shape(outputs[i]) == InShape(elems[i]) {
      MirrorsShape(elems[i], outputs[i], f);
    }
    assert Uniform(outputs);
    assert f.stacks(outputs);
    AllElements(elems, outputs, f);
  }

  /** An interval with printable, parseable endpoints becomes the pair of their values. */
  lemma IntervalPair(lower: string, upper: string, f: Conversions)
    requires WellFormed(Interval(lower, upper), f)
    ensures Disassembled(Interval(lower, upper), f) == Success(Pair(f.mpf(lower).value, f.mpf(upper).value))
  {
    IntervalRoundTrip(lower, upper);
  }

  /**
   * `[a, [b, c]]` for three intervals: the outputs have shapes `(2,)` and
   * `(2, 2)`, so whether the list succeeds is numpy's decision at line 32;
   * where `np.array` refuses them, the whole list goes through its printed
   * text.
   */
  lemma MixedDepth(a: Ivmpf, b: Ivmpf, c: Ivmpf, f: Conversions)
    requires a.Interval? && b.Interval? && c.Interval?
    requires WellFormed(a, f) && WellFormed(b, f) && WellFormed(c, f) && StacksUniform(f)
    ensures var pa := Pair(f.mpf(a.lower).value, f.mpf(a.upper).value);
            var inner := Array([Pair(f.mpf(b.lower).value, f.mpf(b.upper).value), Pair(f.mpf(c.lower).value, f.mpf(c.upper).value)]);
            var whole := Items([a, Items([b, c])]);
            && Disassembled(Items([b, c]), f) == Success(inner)
            && Shape(pa) == [2] && Shape(inner) == [2, 2]
            && (f.stacks([pa, inner]) ==> Disassembled(whole, f) == Success(Array([pa, inner])))
            && (!f.stacks([pa, inner]) ==> Disassembled(whole, f) == FromText(whole, f))
  {
    var pa := Pair(f.mpf(a.lower).value, f.mpf(a.upper).value);
    var pb := Pair(f.mpf(b.lower).value, f.mpf(b.upper).value);
    var pc := Pair(f.mpf(c.lower).value, f.mpf(c.upper).value);
    IntervalPair(a.lower, a.upper, f);
    IntervalPair(b.lower, b.upper, f);
    IntervalPair(c.lower, c.upper, f);
    assert Mapped([b, c], [pb, pc], f);
    assert Uniform([pb, pc]);
    AllElements([b, c], [pb, pc], f);
    var inner := Array([pb, pc]);
    assert Shape(inner) == [2, 2];
    assert Mapped([a, Items([b, c])], [pa, inner], f);
    AllElements([a, Items([b, c])], [pa, inner], f);
  }
}
