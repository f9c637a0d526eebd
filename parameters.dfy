/**
 * `get_bins_param` and `get_boolean_param`: searches of the `parameters` list
 * (name/value pairs) with a fallback default.
 */
module Parameters {
  import opened PyValues
  import opened Records

  const BinsParam: string := "bins"
  const DefaultBins: int := 20

  /** The entry names the parameter and `int()` accepts its value. */
  predicate Converts(p: Param, name: string) {
    p.name == name && ParseInt(p.value).Some?
  }

  /** Entry k is the first one that names the parameter with an integer value. */
  predicate FirstConverting(params: seq<Param>, name: string, k: int) {
    && 0 <= k < |params|
    && Converts(params[k], name)
    && forall j :: 0 <= j < k ==> !Converts(params[j], name)
  }

  /**
   * `get_bins_param`: the value of the first entry that names the parameter
   * and converts to an integer; an entry whose value does not convert is
   * skipped (logged) and the search goes on; with none, `DEFAULT_BINS`.
   */
  method GetBinsParam(params: seq<Param>, name: string) returns (bins: int)
    ensures forall k :: FirstConverting(params, name, k) ==> bins == ParseInt(params[k].value).value
    ensures (forall k :: 0 <= k < |params| ==> !Converts(params[k], name)) ==> bins == DefaultBins
  {
    var i := 0;
    while i < |params|
      invariant 0 <= i <= |params|
      invariant forall j :: 0 <= j < i ==> !Converts(params[j], name)
    {
      var p := params[i];
      if p.name == name {
        var parsed := ParseInt(p.value);
        if parsed.Some? {
          FirstConvertingAt(params, name, i);
          return parsed.value;
        }
        // ValueError: logged, and the search continues
      }
      i := i + 1;
    }
    return DefaultBins;
  }

  /** No other entry is the first converting one. */
  lemma FirstConvertingAt(params: seq<Param>, name: string, i: int)
    requires 0 <= i < |params| && Converts(params[i], name)
    requires forall j :: 0 <= j < i ==> !Converts(params[j], name)
    ensures FirstConverting(params, name, i)
    ensures forall k :: FirstConverting(params, name, k) ==> k == i
  {
  }

  /** The words `get_boolean_param` reads as true, after lower-casing. */
  predicate IsTrueWord(value: string) {
    AsciiLower(value) in ["yes", "true", "t", "1"]
  }

  /** Entry k is the first one that names the parameter. */
  predicate FirstNamed(params: seq<Param>, name: string, k: int) {
    && 0 <= k < |params|
    && params[k].name == name
    && forall j :: 0 <= j < k ==> params[j].name != name
  }

  /**
   * `get_boolean_param`: the first entry that names the parameter decides,
   * true exactly when its lower-cased value is one of `yes`, `true`, `t`, `1`
   * (`str.lower` never raises, so the `ValueError` handler is never taken);
   * with no such entry, the default.
   */
  method GetBooleanParam(params: seq<Param>, name: string, default: bool) returns (b: bool)
    ensures forall k :: FirstNamed(params, name, k) ==> (b <==> IsTrueWord(params[k].value))
    ensures (forall k :: 0 <= k < |params| ==> params[k].name != name) ==> b == default
  {
    var i := 0;
    while i < |params|
      invariant 0 <= i <= |params|
      invariant forall j :: 0 <= j < i ==> params[j].name != name
    {
      if params[i].name == name {
        assert FirstNamed(params, name, i);
        return AsciiLower(params[i].value) in ["yes", "true", "t", "1"];
      }
      i := i + 1;
    }
    return default;
  }

  /** `int()` reads back what `str()` writes, so a bins value written as an integer is that integer. */
  lemma BinsOfDecimal(params: seq<Param>, n: int, k: int)
    requires 0 <= k < |params| && params[k] == Param(BinsParam, IntToDecimal(n))
    requires forall j :: 0 <= j < k ==> params[j].name != BinsParam
    ensures FirstConverting(params, BinsParam, k) && ParseInt(params[k].value).value == n
  {
    ParseIntOfDecimal(n);
  }
}
