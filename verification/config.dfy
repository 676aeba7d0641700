/** The two string helpers of `ash/config.py` that shape log lines: `trim`
    shortens a representation to a length budget and `log_inputs` joins the
    trimmed arguments of a call. `repr` is a parameter: the model takes the
    representation as given. */
module Config {
  import Strings

  /** `trim`'s default budget. */
  const DefaultMaxLen: int := 160

  /** What marks a shortened representation. */
  const Ellipsis: string := "..."

  /** `trim(item, maxlen)` given `stringed == repr(item)`. A zero budget
      means no limit; a representation within budget is kept; anything else
      keeps `stringed[:maxlen - 3]` (Python slicing, so a negative bound
      counts from the end) and appends the ellipsis. */
  function Trim(stringed: string, maxlen: int): (r: string)
    ensures maxlen == 0 || |stringed| <= maxlen ==> r == stringed
    ensures maxlen != 0 && |stringed| > maxlen ==>
      && |Ellipsis| <= |r| <= |stringed| + |Ellipsis|
      && r[|r| - |Ellipsis|..] == Ellipsis
      && r[..|r| - |Ellipsis|] == stringed[..|r| - |Ellipsis|]
    ensures maxlen >= 3 && |stringed| > maxlen ==> |r| == maxlen
  {
    if maxlen == 0 || |stringed| <= maxlen then stringed
    else
      var kept := Strings.PrefixSlice(stringed, maxlen - 3);
      assert (kept + Ellipsis)[..|kept|] == kept;
      kept + Ellipsis
  }

  /** With a budget of at least 3 the result never exceeds it. */
  lemma TrimWithinBudget(stringed: string, maxlen: int)
    requires maxlen >= 3
    ensures |Trim(stringed, maxlen)| <= maxlen
  {
  }

  /** With a budget of at least 3, trimming twice is trimming once. */
  lemma TrimIdempotent(stringed: string, maxlen: int)
    requires maxlen >= 3
    ensures Trim(Trim(stringed, maxlen), maxlen) == Trim(stringed, maxlen)
  {
    TrimWithinBudget(stringed, maxlen);
  }

  /** With a budget of 1 or 2, `stringed[:maxlen - 3]` drops only one or two
      characters from the end, so the "trimmed" result is longer than the
      representation itself. */
  lemma TrimTinyBudgetGrows(stringed: string, maxlen: int)
    requires 1 <= maxlen <= 2 && |stringed| > maxlen
    ensures |Trim(stringed, maxlen)| == |stringed| + maxlen
    ensures |Trim(stringed, maxlen)| > maxlen && |Trim(stringed, maxlen)| > |stringed|
  {
  }

  /** A negative budget also drops characters from the end: all but
      `|stringed| + maxlen - 3` of them, and at least none survive. */
  lemma TrimNegativeBudget(stringed: string, maxlen: int)
    requires maxlen < 0
    ensures |Trim(stringed, maxlen)| == (if |stringed| + maxlen - 3 >= 0 then |stringed| + maxlen - 3 else 0) + 3
  {
  }

  /** `sep.join(parts)`. */
  function Join(parts: seq<string>, sep: string): (r: string)
    ensures parts == [] ==> r == ""
    ensures |parts| > 0 ==> |r| == TotalLength(parts) + (|parts| - 1) * |sep|
    decreases |parts|
  {
    if parts == [] then ""
    else if |parts| == 1 then parts[0]
    else parts[0] + sep + Join(parts[1..], sep)
  }

  /** The summed length of `parts`. */
  function TotalLength(parts: seq<string>): nat
    decreases |parts|
  {
    if parts == [] then 0 else |parts[0]| + TotalLength(parts[1..])
  }

  /** `log_inputs(args, kwargs)`: the trimmed representations of the
      non-empty ones among the positional arguments and the keyword
      arguments, joined by `", "`. An empty tuple or dict is falsy and
      dropped. */
  function LogInputs<A, K>(args: seq<A>, kwargs: map<string, K>,
                           reprArgs: seq<A> -> string, reprKwargs: map<string, K> -> string): (r: string)
    ensures |r| <= 2 * DefaultMaxLen + 2
    ensures args == [] && kwargs == map[] ==> r == ""
  {
    var a := Trim(reprArgs(args), DefaultMaxLen);
    var k := Trim(reprKwargs(kwargs), DefaultMaxLen);
    var parts := (if args != [] then [a] else []) + (if kwargs != map[] then [k] else []);
    TrimWithinBudget(reprArgs(args), DefaultMaxLen);
    TrimWithinBudget(reprKwargs(kwargs), DefaultMaxLen);
    assert TotalLength(parts) <= 2 * DefaultMaxLen by {
      if |parts| == 2 {
        assert parts[1..][1..] == [];
        assert TotalLength(parts[1..]) == |parts[1]| + TotalLength(parts[1..][1..]);
      } else if |parts| == 1 {
        assert parts[1..] == [];
      }
    }
    Join(parts, ", ")
  }

  /** Each kept part is one trimmed representation: with both present the
      line is the positional part, `", "`, then the keyword part. */
  lemma LogInputsParts<A, K>(args: seq<A>, kwargs: map<string, K>,
                             reprArgs: seq<A> -> string, reprKwargs: map<string, K> -> string)
    ensures var r := LogInputs(args, kwargs, reprArgs, reprKwargs);
      var a := Trim(reprArgs(args), DefaultMaxLen);
      var k := Trim(reprKwargs(kwargs), DefaultMaxLen);
      && (args != [] && kwargs == map[] ==> r == a)
      && (args == [] && kwargs != map[] ==> r == k)
      && (args != [] && kwargs != map[] ==> r == a + ", " + k)
  {
    var a := Trim(reprArgs(args), DefaultMaxLen);
    var k := Trim(reprKwargs(kwargs), DefaultMaxLen);
    if args != [] && kwargs != map[] {
      assert [a] + [k] == [a, k];
      assert [a, k][1..] == [k];
      assert Join([a, k], ", ") == a + ", " + Join([k], ", ");
    }
  }

  /** The line is empty exactly when there is nothing to log, as long as
      the representations are not empty (Python's never are). */
  lemma LogInputsEmpty<A, K>(args: seq<A>, kwargs: map<string, K>,
                             reprArgs: seq<A> -> string, reprKwargs: map<string, K> -> string)
    requires reprArgs(args) != "" && reprKwargs(kwargs) != ""
    ensures LogInputs(args, kwargs, reprArgs, reprKwargs) == "" <==> args == [] && kwargs == map[]
  {
    LogInputsParts(args, kwargs, reprArgs, reprKwargs);
  }
}
