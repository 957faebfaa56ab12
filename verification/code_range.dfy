/** `parseExpectedCodesRange`: the text of a probe's `code_range` field
    turned into the bounds the status check compares against. Go returns
    the triple `(max, min, err)` in that order, and on an error keeps the
    values assigned so far (Atoi yields 0 on a syntax error, an unassigned
    named result is 0). */
module CodeRange {
  import opened Strings
  import opened Strconv

  /** The named results of the Go function; `failed` stands for `err != nil`
      (the error text itself is never looked at by any caller). */
  datatype Parsed = Parsed(maxCode: int, minCode: int, failed: bool)

  const DefaultMax: int := 399
  const DefaultMin: int := 199

  function ParseExpectedCodesRange(input: string): (r: Parsed)
    ensures r.failed ==> input != "" && r.maxCode == 0
  {
    if input == "" then Parsed(DefaultMax, DefaultMin, false)
    else
      var parts := Split(input, '-');
      match Atoi(parts[0])
      case None => Parsed(0, 0, true)
      case Some(lo) =>
        if |parts| == 1 then Parsed(lo, lo, false)
        else
          match Atoi(parts[1])
          case None => Parsed(0, lo, true)
          case Some(hi) => Parsed(hi, lo, false)
  }

  /** Empty text gives the default band 199..399 and no error. */
  lemma ParseEmpty()
    ensures ParseExpectedCodesRange("") == Parsed(399, 199, false)
  {
  }

  /** Text without a dash is one code: both bounds are its value, or an
      error with both bounds 0 when it is not an integer. */
  lemma ParseSingleCode(input: string)
    requires input != "" && '-' !in input
    ensures var r := ParseExpectedCodesRange(input);
      match Atoi(input)
      case Some(v) => r == Parsed(v, v, false)
      case None => r == Parsed(0, 0, true)
  {
    SplitWithoutSeparator(input, '-');
  }

  /** Text `a-b` followed by nothing or by `-...`: the minimum comes from `a`,
      the maximum from `b`, anything after the second segment is ignored,
      and the bounds are not required to be in order. A bad `a` gives
      `(0, 0)` with an error; a good `a` with a bad `b` gives
      `(max 0, min a)` with an error. */
  lemma ParseTwoSegments(a: string, b: string, rest: string)
    requires '-' !in a && '-' !in b
    requires rest == "" || rest[0] == '-'
    ensures var r := ParseExpectedCodesRange(a + "-" + b + rest);
      match Atoi(a)
      case None => r == Parsed(0, 0, true)
      case Some(lo) =>
        match Atoi(b)
        case None => r == Parsed(0, lo, true)
        case Some(hi) => r == Parsed(hi, lo, false)
  {
    var input := a + "-" + b + rest;
    assert input == a + ['-'] + (b + rest);
    SplitAtFirstSeparator(a, b + rest, '-');
    if rest == "" {
      assert b + rest == b;
      SplitWithoutSeparator(b, '-');
    } else {
      assert b + rest == b + ['-'] + rest[1..];
      SplitAtFirstSeparator(b, rest[1..], '-');
    }
    assert Split(input, '-')[0] == a;
    assert Split(input, '-')[1] == b;
  }
}
