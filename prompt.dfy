/** `get_valid_input`, which `plot_json.py` and `plot_tensor.py` each define
    with the same body: read a line, strip it, convert it with `value_type`, and
    return it when it is among `valid_values` (or when there are none);
    otherwise ask again.

    The lines typed at the prompt are a parameter; `value_type` is a parser
    whose `None` stands for the `ValueError` the conversion raises. */
module Prompt {
  import opened Wrappers
  import opened Text

  /** `str` as a `value_type`: every line converts. */
  function AsString(s: string): Option<string> {
    Some(s)
  }

  /** `int` as a `value_type`. */
  function AsInt(s: string): Option<int> {
    ParseInt(s)
  }

  /** The line converts and, when there are valid values, is one of them. */
  predicate Accepts<T(==)>(parse: string -> Option<T>, valid: Option<set<T>>, line: string) {
    parse(Strip(line)).Some? && (valid.None? || parse(Strip(line)).value in valid.value)
  }

  /** The retry loop over the lines typed: the value of the first accepted line
      and its position, or `None` when input runs out first (where the script
      would wait for more). */
  method GetValidInput<T(==)>(lines: seq<string>, parse: string -> Option<T>, valid: Option<set<T>>)
    returns (r: Option<(T, nat)>)
    ensures r.Some? ==>
      && r.value.1 < |lines|
      && Accepts(parse, valid, lines[r.value.1])
      && parse(Strip(lines[r.value.1])) == Some(r.value.0)
      && (forall j :: 0 <= j < r.value.1 ==> !Accepts(parse, valid, lines[j]))
    ensures r.Some? && valid.Some? ==> r.value.0 in valid.value
    ensures r.None? <==> forall j :: 0 <= j < |lines| ==> !Accepts(parse, valid, lines[j])
  {
    var i := 0;
    while i < |lines|
      invariant i <= |lines|
      invariant forall j :: 0 <= j < i ==> !Accepts(parse, valid, lines[j])
    {
      var value := parse(Strip(lines[i]));
      if value.Some? {
        if valid.None? || value.value in valid.value {
          return Some((value.value, i));
        }
      }
      i := i + 1;
    }
    return None;
  }

  /** Typing a number as `str` prints it is accepted by an `int` prompt
      exactly when the number is valid. */
  lemma IntLineAccepted(n: int, valid: set<int>)
    ensures Accepts(AsInt, Some(valid), IntToString(n)) <==> n in valid
  {
    var s := IntToString(n);
    ParseIntToString(n);
    if n < 0 {
      assert s == "-" + DecimalDigits(-n);
    }
    StripUnpadded(s);
  }
}
