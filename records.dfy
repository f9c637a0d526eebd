/**
 * The records the histogram code reads and produces: variables as they come
 * from the input (name, type, series, optional bounds), the histogram records
 * it emits (label, title, x-axis categories, named series of counts) and the
 * name/value parameter pairs.
 */
module Records {
  import opened PyValues

  /** `var['type']`: the type name and, for a nominal variable, its enumeration. */
  datatype VarType = VarType(name: string, enumeration: seq<Value>)

  /** A variable record: `name`, `type`, `series` and the optional `minValue`/`maxValue`. */
  datatype Variable = Variable(
    name: string,
    typ: VarType,
    series: seq<Value>,
    minValue: Option<int>,
    maxValue: Option<int>)

  /** One series of a histogram: `{"name": ..., "data": [...]}`. */
  datatype Series = Series(name: Value, data: seq<int>)

  /**
   * A histogram record: `label` (here `labelText`), `title.text`, `xAxis.categories` and `series`.
   * The constant `chart` and `yAxis` entries are the same in every record and
   * are not represented.
   */
  datatype Histogram = Histogram(labelText: string, title: string, categories: seq<string>, series: seq<Series>)

  /** One entry of the `parameters` list. */
  datatype Param = Param(name: string, value: string)

  /** `is_nominal`: the type name is `binominal` or `polynominal`. */
  predicate IsNominal(v: Variable)
    ensures IsNominal(v) <==> v.typ.name == "binominal" || v.typ.name == "polynominal"
  {
    v.typ.name in ["binominal", "polynominal"]
  }

  /**
   * `is_integer`: the type name is `integer`. No variable is both nominal and
   * integer, so the branches on the two never overlap.
   */
  predicate IsInteger(v: Variable)
    ensures IsInteger(v) <==> v.typ.name == "integer"
    ensures IsInteger(v) ==> !IsNominal(v)
  {
    v.typ.name in ["integer"]
  }

  /** `[v for v in vars if is_nominal(v)]`: the grouping variables, in their input order. */
  function NominalVars(vars: seq<Variable>): (r: seq<Variable>)
    ensures |r| <= |vars|
    ensures forall v :: v in r <==> v in vars && IsNominal(v)
    ensures |vars| == 1 ==> r == if IsNominal(vars[0]) then vars else []
  {
    if vars == [] then []
    else if IsNominal(vars[0]) then [vars[0]] + NominalVars(vars[1..])
    else NominalVars(vars[1..])
  }

  /** Filtering two runs of variables filters each, in order. */
  lemma {:induction false} NominalVarsAppend(a: seq<Variable>, b: seq<Variable>)
    ensures NominalVars(a + b) == NominalVars(a) + NominalVars(b)
  {
    if a == [] {
      assert a + b == b;
    } else {
      assert (a + b)[1..] == a[1..] + b;
      NominalVarsAppend(a[1..], b);
    }
  }

  /** Filtering keeps every nominal variable and drops every other one: it is the identity on nominal lists. */
  lemma {:induction false} NominalVarsOfNominal(vars: seq<Variable>)
    requires forall i :: 0 <= i < |vars| ==> IsNominal(vars[i])
    ensures NominalVars(vars) == vars
  {
    if vars != [] {
      NominalVarsOfNominal(vars[1..]);
    }
  }

  /**
   * The grouping filter selects by type name alone: it keeps exactly the
   * `binominal` and `polynominal` variables and never an integer one, a
   * second pass changes nothing, and it leaves a list unchanged exactly when
   * every variable of the list is nominal.
   */
  lemma NominalSelection(vars: seq<Variable>)
    ensures forall v :: v in NominalVars(vars) <==> v in vars && (v.typ.name == "binominal" || v.typ.name == "polynominal")
    ensures forall v :: v in vars && IsInteger(v) ==> v !in NominalVars(vars)
    ensures NominalVars(NominalVars(vars)) == NominalVars(vars)
    ensures NominalVars(vars) == vars <==> forall i :: 0 <= i < |vars| ==> IsNominal(vars[i])
  {
    var r := NominalVars(vars);
    assert forall i :: 0 <= i < |r| ==> IsNominal(r[i]) by {
      assert forall i :: 0 <= i < |r| ==> r[i] in r;
    }
    NominalVarsOfNominal(r);
    if forall i :: 0 <= i < |vars| ==> IsNominal(vars[i]) {
      NominalVarsOfNominal(vars);
    }
  }
}
