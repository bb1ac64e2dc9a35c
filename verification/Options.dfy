/**
 * The option value parsers of the program's entry point (`src/main.py`):
 * a boolean parser that ends the process on a malformed value, and a
 * comma-separated list splitter.
 */
module Options {
  import opened Wrappers
  import opened Text

  /** A default handed to `parsebool`: an environment string, or a Python boolean literal. */
  datatype RawValue = Text(s: string) | Flag(b: bool)

  /** Python's `str(value)`. */
  function Str(v: RawValue): string {
    match v
    case Text(s) => s
    case Flag(b) => if b then "True" else "False"
  }

  /** The exit status with which `parsebool` ends the process on a malformed value. */
  const InvalidValueExit := 1

  const TrueValues: set<string> := {"true", "1"}
  const FalseValues: set<string> := {"false", "0"}

  /** The text `parsebool` compares: lower-cased, then stripped of surrounding whitespace. */
  function Normalize(v: RawValue): string {
    Strip(Lower(Str(v)))
  }

  /**
   * `parsebool`: Ok(true) for `true`/`1`, Ok(false) for `false`/`0`, ignoring case and
   * surrounding whitespace; any other value makes the process exit with status 1.
   */
  function ParseBool(v: RawValue): (r: Result<bool, int>)
    ensures r == Ok(true) <==> Normalize(v) == "true" || Normalize(v) == "1"
    ensures r == Ok(false) <==> Normalize(v) == "false" || Normalize(v) == "0"
    ensures r.Err? <==> Normalize(v) !in {"true", "1", "false", "0"}
    ensures r.Err? ==> r.error == InvalidValueExit
  {
    var stripped := Normalize(v);
    if stripped in TrueValues then Ok(true)
    else if stripped in FalseValues then Ok(false)
    else Err(InvalidValueExit)
  }

  /** Whitespace is never changed by lower-casing. */
  lemma {:induction false} LowerAllSpace(a: string)
    requires AllSpace(a)
    ensures Lower(a) == a
  {
    forall i | 0 <= i < |a| ensures Lower(a)[i] == a[i] {
      assert IsSpace(a[i]);
    }
  }

  /**
   * `parsebool` ignores letter case and surrounding whitespace: the padded,
   * arbitrarily-cased text parses like its lower-case core.
   */
  lemma ParseBoolIgnoresCaseAndPadding(a: string, s: string, b: string)
    requires AllSpace(a) && AllSpace(b)
    ensures ParseBool(Text(a + s + b)) == ParseBool(Text(Lower(s)))
  {
    assert Lower(a + s + b) == Lower(a) + Lower(s) + Lower(b);
    LowerAllSpace(a);
    LowerAllSpace(b);
    StripPadding(a, Lower(s), b);
    LowerIdempotent(s);
  }

  /** The Python boolean defaults (`str(True)` is `True`) parse back to themselves. */
  lemma ParseBoolFlag(b: bool)
    ensures ParseBool(Flag(b)) == Ok(b)
  {
    if b {
      assert Lower("True") == "true";
      assert Strip("true") == "true";
    } else {
      assert Lower("False") == "false";
      assert Strip("false") == "false";
    }
  }

  /**
   * `parselist`: the comma-separated segments of `value` in order, without the
   * empty ones; put together they are `value` without its commas.
   */
  function ParseList(value: string): (r: seq<string>)
    ensures forall i :: 0 <= i < |r| ==> r[i] != [] && ',' !in r[i]
    ensures Concat(r) == Without(value, ',')
  {
    var pieces := Split(value, ',');
    ConcatSplit(value, ',');
    ConcatNonEmpty(pieces);
    SplitNoSep(value, ',');
    NonEmptySpec(pieces);
    NonEmpty(pieces)
  }

  /** `parselist` undoes a comma join of non-empty, comma-free items. */
  lemma ParseListJoin(xs: seq<string>)
    requires forall i :: 0 <= i < |xs| ==> xs[i] != [] && ',' !in xs[i]
    ensures ParseList(Join(xs, ',')) == xs
  {
    if xs == [] {
      assert Split([], ',') == [[]];
    } else {
      SplitJoin(xs, ',');
      NonEmptyKeeps(xs);
    }
  }

  /**
   * `parselist` keeps the comma-separated segments of any text in order and
   * drops exactly the empty ones (every text is such a join, by `JoinSplit`).
   */
  lemma ParseListSegments(xs: seq<string>)
    requires |xs| >= 1
    requires forall i :: 0 <= i < |xs| ==> ',' !in xs[i]
    ensures ParseList(Join(xs, ',')) == NonEmpty(xs)
  {
    SplitJoin(xs, ',');
  }

  /** Empty segments, including a trailing one, are dropped: `a,,b,` gives `a`, `b`. */
  lemma ParseListExample()
    ensures ParseList("a,,b,") == ["a", "b"]
  {
    assert Split("", ',') == [""];
    assert Split(",", ',') == ["", ""];
    assert "b,"[1..] == "," && "b,"[0] == 'b';
    assert ['b'] + "" == "b";
    assert ["", ""][1..] == [""];
    assert Split("b,", ',') == ["b", ""];
    assert Split(",b,", ',') == ["", "b", ""];
    assert Split(",,b,", ',') == ["", "", "b", ""];
    assert "a,,b,"[1..] == ",,b," && "a,,b,"[0] == 'a';
    assert ['a'] + "" == "a";
    assert ["", "", "b", ""][1..] == ["", "b", ""];
    assert Split("a,,b,", ',') == ["a", "", "b", ""];
    assert NonEmpty(["", "b", ""]) == ["b"];
  }
}
