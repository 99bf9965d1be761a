/** Parameter values, their limits, and what breaks them. */
module ParameterValues {
  import opened Options

  datatype IntType = Int8 | Int16 | Int32 | Int64 | Uint8 | Uint16 | Uint32 | Uint64

  datatype FloatType = Float | Double

  /** A value of one of the types a parameter can have, tables excepted. A timer or a duration of
      zero is empty. */
  datatype Value =
    | Integer(it: IntType, i: int)
    | OptionalInteger(it: IntType, oi: Option<int>)
    | Real(ft: FloatType, r: real)
    | OptionalReal(ft: FloatType, or: Option<real>)
    | Boolean(b: bool)
    | Text(s: string)
    | Timer(ns: int)
    | Duration(ns: int)

  /** Limits of integers and durations are whole numbers; they are compared as the reals they are. */
  datatype Limits = Limits(min: Option<real>, max: Option<real>, canBeEmpty: bool)

  const LESS := "is less than min value"
  const GREATER := "is greater than max value"
  const EMPTY := "is empty"

  function Epsilon(ft: FloatType): real {
    match ft
    case Float => 0.000001
    case Double => 0.0000000001
  }

  function Abs(x: real): real {
    if x < 0.0 then -x else x
  }

  predicate FloatLess(ft: FloatType, a: real, b: real) {
    b - a > Epsilon(ft)
  }

  predicate FloatGreater(ft: FloatType, a: real, b: real) {
    a - b > Epsilon(ft)
  }

  predicate FloatEqual(ft: FloatType, a: real, b: real) {
    Abs(a - b) < Epsilon(ft)
  }

  function OfLimits(limits: Limits, x: real, epsilon: real): string {
    if limits.min.Some? && limits.min.value - x > epsilon then LESS
    else if limits.max.Some? && x - limits.max.value > epsilon then GREATER
    else ""
  }

  function OfEmptiness(limits: Limits): string {
    if limits.canBeEmpty then "" else EMPTY
  }

  /** The error of a value; empty if there is none. */
  function Violation(limits: Limits, v: Value): string {
    match v
    case Integer(_, i) => OfLimits(limits, i as real, 0.0)
    case OptionalInteger(_, oi) => if oi.Some? then OfLimits(limits, oi.value as real, 0.0) else OfEmptiness(limits)
    case Real(ft, r) => OfLimits(limits, r, Epsilon(ft))
    case OptionalReal(ft, or) => if or.Some? then OfLimits(limits, or.value, Epsilon(ft)) else OfEmptiness(limits)
    case Boolean(_) => ""
    case Text(s) => if s == "" then OfEmptiness(limits) else ""
    case Timer(ns) => if ns == 0 then OfEmptiness(limits) else ""
    case Duration(ns) => if ns != 0 then OfLimits(limits, ns as real, 0.0) else OfEmptiness(limits)
  }

  /** What a value measures, if it measures anything. */
  function Measure(v: Value): Option<real> {
    match v
    case Integer(_, i) => Some(i as real)
    case OptionalInteger(_, Some(i)) => Some(i as real)
    case Real(_, r) => Some(r)
    case OptionalReal(_, Some(r)) => Some(r)
    case Duration(ns) => if ns != 0 then Some(ns as real) else None
    case _ => None
  }

  predicate IsEmpty(v: Value) {
    match v
    case OptionalInteger(_, oi) => oi.None?
    case OptionalReal(_, or) => or.None?
    case Text(s) => s == ""
    case Timer(ns) => ns == 0
    case Duration(ns) => ns == 0
    case _ => false
  }

  function Tolerance(v: Value): real {
    match v
    case Real(ft, _) => Epsilon(ft)
    case OptionalReal(ft, _) => Epsilon(ft)
    case _ => 0.0
  }

  /** What the limits ask of a value: to lie between them, as far as its type can tell, and to be
      there unless it may be empty. */
  predicate Satisfies(limits: Limits, v: Value) {
    && (IsEmpty(v) ==> limits.canBeEmpty)
    && (Measure(v).Some? && limits.min.Some? ==> limits.min.value <= Measure(v).value + Tolerance(v))
    && (Measure(v).Some? && limits.max.Some? ==> Measure(v).value <= limits.max.value + Tolerance(v))
  }

  /** The checks find an error exactly if the limits are broken. */
  lemma ViolationExact(limits: Limits, v: Value)
    ensures Violation(limits, v) == "" <==> Satisfies(limits, v)
  {
    match v
    case OptionalInteger(_, oi) => if oi.Some? {}
    case OptionalReal(_, or) => if or.Some? {}
    case _ =>
  }

  /** The limits in numbers: a float may miss them by a millionth, a double by a ten-thousandth of
      that; an empty value is one that has to be allowed. */
  lemma SatisfiesMeans(limits: Limits, it: IntType, i: int, r: real, b: bool, s: string, ns: int)
    ensures Satisfies(limits, Integer(it, i)) <==>
            (limits.min.Some? ==> limits.min.value <= i as real) && (limits.max.Some? ==> i as real <= limits.max.value)
    ensures Satisfies(limits, OptionalInteger(it, Some(i))) <==>
            (limits.min.Some? ==> limits.min.value <= i as real) && (limits.max.Some? ==> i as real <= limits.max.value)
    ensures Satisfies(limits, Real(Float, r)) <==>
            && (limits.min.Some? ==> limits.min.value - 0.000001 <= r)
            && (limits.max.Some? ==> r <= limits.max.value + 0.000001)
    ensures Satisfies(limits, Real(Double, r)) <==>
            && (limits.min.Some? ==> limits.min.value - 0.0000000001 <= r)
            && (limits.max.Some? ==> r <= limits.max.value + 0.0000000001)
    ensures Satisfies(limits, OptionalReal(Float, Some(r))) <==> Satisfies(limits, Real(Float, r))
    ensures Satisfies(limits, OptionalReal(Double, Some(r))) <==> Satisfies(limits, Real(Double, r))
    ensures Satisfies(limits, OptionalInteger(it, None)) <==> limits.canBeEmpty
    ensures Satisfies(limits, OptionalReal(Float, None)) <==> limits.canBeEmpty
    ensures Satisfies(limits, OptionalReal(Double, None)) <==> limits.canBeEmpty
    ensures Satisfies(limits, Boolean(b))
    ensures Satisfies(limits, Text(s)) <==> (s == "" ==> limits.canBeEmpty)
    ensures Satisfies(limits, Timer(ns)) <==> (ns == 0 ==> limits.canBeEmpty)
    ensures ns != 0 ==>
              (Satisfies(limits, Duration(ns)) <==>
               (limits.min.Some? ==> limits.min.value <= ns as real) && (limits.max.Some? ==> ns as real <= limits.max.value))
    ensures Satisfies(limits, Duration(0)) <==> limits.canBeEmpty
  {
  }

  /** The error names the lower limit if that is broken, else the upper one, or the emptiness. */
  lemma ViolationNames(limits: Limits, it: IntType, i: int)
    ensures limits.min.Some? && i as real < limits.min.value ==> Violation(limits, Integer(it, i)) == "is less than min value"
    ensures !(limits.min.Some? && i as real < limits.min.value) && limits.max.Some? && i as real > limits.max.value ==>
              Violation(limits, Integer(it, i)) == "is greater than max value"
    ensures !limits.canBeEmpty ==> Violation(limits, OptionalInteger(it, None)) == "is empty"
  {
  }

  predicate SameType(v: Value, w: Value) {
    match (v, w)
    case (Integer(t, _), Integer(u, _)) => t == u
    case (OptionalInteger(t, _), OptionalInteger(u, _)) => t == u
    case (Real(t, _), Real(u, _)) => t == u
    case (OptionalReal(t, _), OptionalReal(u, _)) => t == u
    case (Boolean(_), Boolean(_)) => true
    case (Text(_), Text(_)) => true
    case (Timer(_), Timer(_)) => true
    case (Duration(_), Duration(_)) => true
    case _ => false
  }

  /** An update to this value is skipped: it is the value held, floats being told apart only beyond
      their tolerance. */
  predicate Same(v: Value, w: Value) {
    match (v, w)
    case (Real(t, r), Real(_, q)) => FloatEqual(t, r, q)
    case (OptionalReal(t, Some(r)), OptionalReal(_, Some(q))) => FloatEqual(t, r, q)
    case (OptionalReal(_, o), OptionalReal(_, p)) => o == p
    case _ => v == w
  }

  /** An update of another type, or to the value held, is not taken on. */
  predicate Skipped(v: Value, w: Value) {
    !SameType(v, w) || Same(v, w)
  }

  /** Which updates are skipped, by their values. */
  lemma SkippedMeans(it: IntType, jt: IntType, i: int, j: int, r: real, q: real, b: bool, c: bool, s: string, t: string)
    ensures Skipped(Integer(it, i), Integer(jt, j)) <==> it != jt || i == j
    ensures Skipped(OptionalInteger(it, Some(i)), OptionalInteger(jt, Some(j))) <==> it != jt || i == j
    ensures Skipped(OptionalInteger(it, None), OptionalInteger(jt, None))
    ensures Skipped(OptionalInteger(it, Some(i)), OptionalInteger(jt, None)) <==> it != jt
    ensures Skipped(OptionalInteger(it, None), OptionalInteger(jt, Some(j))) <==> it != jt
    ensures Skipped(Real(Float, r), Real(Float, q)) <==> -0.000001 < r - q < 0.000001
    ensures Skipped(Real(Double, r), Real(Double, q)) <==> -0.0000000001 < r - q < 0.0000000001
    ensures Skipped(Real(Float, r), Real(Double, q)) && Skipped(Real(Double, r), Real(Float, q))
    ensures Skipped(OptionalReal(Float, Some(r)), OptionalReal(Float, Some(q))) <==> -0.000001 < r - q < 0.000001
    ensures Skipped(OptionalReal(Double, Some(r)), OptionalReal(Double, Some(q))) <==>
            -0.0000000001 < r - q < 0.0000000001
    ensures Skipped(OptionalReal(Float, Some(r)), OptionalReal(Double, Some(q)))
    ensures Skipped(OptionalReal(Double, Some(r)), OptionalReal(Float, Some(q)))
    ensures Skipped(OptionalReal(Float, None), OptionalReal(Float, None))
    ensures !Skipped(OptionalReal(Float, Some(r)), OptionalReal(Float, None))
    ensures !Skipped(OptionalReal(Double, None), OptionalReal(Double, Some(q)))
    ensures Skipped(Boolean(b), Boolean(c)) <==> b == c
    ensures Skipped(Text(s), Text(t)) <==> s == t
    ensures Skipped(Timer(i), Timer(j)) <==> i == j
    ensures Skipped(Duration(i), Duration(j)) <==> i == j
  {
  }

  /** An update of another kind is skipped. */
  lemma OtherKindSkipped(v: Value, w: Value)
    requires v.Integer? != w.Integer? || v.OptionalInteger? != w.OptionalInteger? || v.Real? != w.Real?
             || v.OptionalReal? != w.OptionalReal? || v.Boolean? != w.Boolean? || v.Text? != w.Text?
             || v.Timer? != w.Timer? || v.Duration? != w.Duration?
    ensures Skipped(v, w)
  {
  }

  /** What a parameter holds. */
  datatype Content = Content(value: Value, error: string)

  function Registered(limits: Limits, v: Value): Content {
    Content(v, Violation(limits, v))
  }

  function Merged(limits: Limits, c: Content, v: Value): Content {
    if Skipped(c.value, v) then c else Content(v, Violation(limits, v))
  }

  /** A value that breaks the limits never goes without an error. */
  predicate Watched(limits: Limits, c: Content) {
    c.error == "" ==> Satisfies(limits, c.value)
  }

  lemma MergeWatches(limits: Limits, c: Content, v: Value)
    requires Watched(limits, c)
    ensures Watched(limits, Merged(limits, c, v))
    ensures c.error == "" ==> (Merged(limits, c, v).error == "" <==> Skipped(c.value, v) || Satisfies(limits, v))
  {
    ViolationExact(limits, v);
  }
}

/** Parameters and the application that runs on them. */
module ApplicationModel {
  import opened Options
  import opened ParameterValues

  type Id = int

  class Parameter {
    const limits: Limits
    var value: Value
    var error: string

    function Content(): Content
      reads this
    {
      ParameterValues.Content.Content(value, error)
    }

    constructor (limits: Limits, value: Value)
      ensures this.limits == limits && Content() == ParameterValues.Content.Content(value, "")
    {
      this.limits, this.value, this.error := limits, value, "";
    }

    /** The limits are checked type by type; a value that breaks them is registered all the same,
        with an error. */
    method RegisterValidation() returns (valid: bool)
      requires error == ""
      modifies this`error
      ensures Content() == Registered(limits, value) && valid == (error == "")
      ensures valid <==> Satisfies(limits, value)
    {
      valid := true;
      ViolationExact(limits, value);
      match value {
        case Integer(_, i) =>
          if limits.min.Some? && i as real < limits.min.value {
            error, valid := LESS, false;
          } else if limits.max.Some? && i as real > limits.max.value {
            error, valid := GREATER, false;
          }
        case OptionalInteger(_, Some(i)) =>
          if limits.min.Some? && i as real < limits.min.value {
            error, valid := LESS, false;
          } else if limits.max.Some? && i as real > limits.max.value {
            error, valid := GREATER, false;
          }
        case OptionalInteger(_, None) =>
          if !limits.canBeEmpty {
            error, valid := EMPTY, false;
          }
        case Real(ft, r) =>
          if limits.min.Some? && FloatLess(ft, r, limits.min.value) {
            error, valid := LESS, false;
          } else if limits.max.Some? && FloatGreater(ft, r, limits.max.value) {
            error, valid := GREATER, false;
          }
        case OptionalReal(ft, Some(r)) =>
          if limits.min.Some? && FloatLess(ft, r, limits.min.value) {
            error, valid := LESS, false;
          } else if limits.max.Some? && FloatGreater(ft, r, limits.max.value) {
            error, valid := GREATER, false;
          }
        case OptionalReal(_, None) =>
          if !limits.canBeEmpty {
            error, valid := EMPTY, false;
          }
        case Boolean(_) =>
        case Text(s) =>
          if s == "" && !limits.canBeEmpty {
            error, valid := EMPTY, false;
          }
        case Timer(ns) =>
          if ns == 0 && !limits.canBeEmpty {
            error, valid := EMPTY, false;
          }
        case Duration(ns) =>
          if ns != 0 {
            if limits.min.Some? && ns as real < limits.min.value {
              error, valid := LESS, false;
            } else if limits.max.Some? && ns as real > limits.max.value {
              error, valid := GREATER, false;
            }
          } else if !limits.canBeEmpty {
            error, valid := EMPTY, false;
          }
      }
    }

    /** An update of another type, or to the same value, changes nothing; any other is taken on, with
        an error if it breaks the limits. */
    method Merge(update: Value) returns (valid: bool)
      modifies this`value, this`error
      ensures Content() == Merged(limits, old(Content()), update) && valid == (error == "")
      ensures valid <==> if Skipped(old(value), update) then old(error) == "" else Satisfies(limits, update)
    {
      ViolationExact(limits, update);
      if !SameType(value, update) {
        return error == "";
      }
      match update {
        case Integer(_, i) => valid := MergeInteger(i);
        case OptionalInteger(_, oi) => valid := MergeOptionalInteger(oi);
        case Real(_, r) => valid := MergeReal(r);
        case OptionalReal(_, or) => valid := MergeOptionalReal(or);
        case Boolean(b) => valid := MergeBoolean(b);
        case Text(s) => valid := MergeText(s);
        case Timer(ns) => valid := MergeTimer(ns);
        case Duration(ns) => valid := MergeDuration(ns);
      }
    }

    method MergeInteger(i: int) returns (valid: bool)
      requires value.Integer?
      modifies this`value, this`error
      ensures Content() == Merged(limits, old(Content()), Integer(old(value).it, i)) && valid == (error == "")
    {
      if value.i == i {
        return error == "";
      }
      valid := true;
      if limits.min.Some? && i as real < limits.min.value {
        error, valid := LESS, false;
      } else if limits.max.Some? && i as real > limits.max.value {
        error, valid := GREATER, false;
      } else {
        error := "";
      }
      value := value.(i := i);
    }

    method MergeOptionalInteger(oi: Option<int>) returns (valid: bool)
      requires value.OptionalInteger?
      modifies this`value, this`error
      ensures Content() == Merged(limits, old(Content()), OptionalInteger(old(value).it, oi)) && valid == (error == "")
    {
      if value.oi == oi {
        return error == "";
      }
      valid := true;
      if oi.Some? {
        if limits.min.Some? && oi.value as real < limits.min.value {
          error, valid := LESS, false;
        } else if limits.max.Some? && oi.value as real > limits.max.value {
          error, valid := GREATER, false;
        }
      } else if !limits.canBeEmpty {
        error, valid := EMPTY, false;
      }
      value := value.(oi := oi);
      if valid {
        error := "";
      }
    }

    method MergeReal(r: real) returns (valid: bool)
      requires value.Real?
      modifies this`value, this`error
      ensures Content() == Merged(limits, old(Content()), Real(old(value).ft, r)) && valid == (error == "")
    {
      if FloatEqual(value.ft, value.r, r) {
        return error == "";
      }
      valid := true;
      if limits.min.Some? && FloatLess(value.ft, r, limits.min.value) {
        error, valid := LESS, false;
      } else if limits.max.Some? && FloatGreater(value.ft, r, limits.max.value) {
        error, valid := GREATER, false;
      } else {
        error := "";
      }
      value := value.(r := r);
    }

    method MergeOptionalReal(or: Option<real>) returns (valid: bool)
      requires value.OptionalReal?
      modifies this`value, this`error
      ensures Content() == Merged(limits, old(Content()), OptionalReal(old(value).ft, or)) && valid == (error == "")
    {
      if (value.or.None? && or.None?)
         || (value.or.Some? && or.Some? && FloatEqual(value.ft, value.or.value, or.value))
      {
        return error == "";
      }
      valid := true;
      if or.Some? {
        if limits.min.Some? && FloatLess(value.ft, or.value, limits.min.value) {
          error, valid := LESS, false;
        } else if limits.max.Some? && FloatGreater(value.ft, or.value, limits.max.value) {
          error, valid := GREATER, false;
        }
      } else if !limits.canBeEmpty {
        error, valid := EMPTY, false;
      }
      value := value.(or := or);
      if valid {
        error := "";
      }
    }

    method MergeBoolean(b: bool) returns (valid: bool)
      requires value.Boolean?
      modifies this`value, this`error
      ensures Content() == Merged(limits, old(Content()), Boolean(b)) && valid == (error == "")
    {
      if value.b == b {
        return error == "";
      }
      valid := true;
      value, error := Boolean(b), "";
    }

    method MergeText(s: string) returns (valid: bool)
      requires value.Text?
      modifies this`value, this`error
      ensures Content() == Merged(limits, old(Content()), Text(s)) && valid == (error == "")
    {
      if value.s == s {
        return error == "";
      }
      valid := true;
      if s == "" && !limits.canBeEmpty {
        error, valid := EMPTY, false;
      } else {
        error := "";
      }
      value := Text(s);
    }

    method MergeTimer(ns: int) returns (valid: bool)
      requires value.Timer?
      modifies this`value, this`error
      ensures Content() == Merged(limits, old(Content()), Timer(ns)) && valid == (error == "")
    {
      if value.ns == ns {
        return error == "";
      }
      valid := true;
      if ns == 0 && !limits.canBeEmpty {
        error, valid := EMPTY, false;
      } else {
        error := "";
      }
      value := Timer(ns);
    }

    method MergeDuration(ns: int) returns (valid: bool)
      requires value.Duration?
      modifies this`value, this`error
      ensures Content() == Merged(limits, old(Content()), Duration(ns)) && valid == (error == "")
    {
      if value.ns == ns {
        return error == "";
      }
      valid := true;
      if ns != 0 {
        if limits.min.Some? && ns as real < limits.min.value {
          error, valid := LESS, false;
        } else if limits.max.Some? && ns as real > limits.max.value {
          error, valid := GREATER, false;
        }
      } else if !limits.canBeEmpty {
        error, valid := EMPTY, false;
      }
      value := Duration(ns);
      if valid {
        error := "";
      }
    }
  }

  datatype State = Undefined | Paused | Running

  class Application {
    var parameters: map<Id, Parameter>
    var errorParameters: set<Id>
    var state: State

    /** The parameters with an error are those in the error map, and no broken limit goes unnoticed. */
    ghost predicate Valid()
      reads this, parameters.Values
    {
      && (forall a, b :: a in parameters && b in parameters && a != b ==> parameters[a] != parameters[b])
      && (forall id :: id in errorParameters ==> id in parameters)
      && (forall id :: id in parameters ==> (parameters[id].error != "" <==> id in errorParameters))
      && (forall id :: id in parameters ==> Watched(parameters[id].limits, parameters[id].Content()))
    }

    /** A running application has no parameter with an error. */
    ghost predicate Safe()
      reads this
    {
      state == Running ==> errorParameters == {}
    }

    constructor ()
      ensures Valid() && Safe() && parameters == map[] && state == Paused
    {
      parameters, errorParameters, state := map[], {}, Paused;
    }

    /** What it means to be valid and safe: while running, every value satisfies its limits. */
    lemma RunningImpliesValid()
      requires Valid() && Safe() && state == Running
      ensures forall id :: id in parameters ==> Satisfies(parameters[id].limits, parameters[id].value)
    {
      forall id | id in parameters
        ensures Satisfies(parameters[id].limits, parameters[id].value)
      {
        assert id !in errorParameters;
        assert Watched(parameters[id].limits, parameters[id].Content());
      }
    }

    /** Registers a parameter. A running application stays safe exactly if the new one is valid. */
    method RegisterParameter(id: Id, parameter: Parameter)
      requires Valid() && parameter !in parameters.Values && parameter.error == ""
      modifies this`parameters, this`errorParameters, parameter`error
      ensures Valid() && state == old(state)
      ensures id in old(parameters) ==> parameters == old(parameters) && errorParameters == old(errorParameters)
      ensures id !in old(parameters) ==> parameters == old(parameters)[id := parameter]
      ensures old(Safe()) ==>
                (Safe() <==> state != Running || id in old(parameters) || Satisfies(parameter.limits, parameter.value))
    {
      if id in parameters {
        return;
      }
      ViolationExact(parameter.limits, parameter.value);
      parameters := parameters[id := parameter];
      var valid := parameter.RegisterValidation();
      if valid {
        return;
      }
      errorParameters := errorParameters + {id};
      assert id in errorParameters;
    }

    /** Merges one update. A running application stays safe exactly if the update is skipped or
        satisfies the limits. */
    method MergeParameter(id: Id, update: Value)
      requires Valid()
      modifies this`errorParameters, parameters.Values
      ensures Valid() && parameters == old(parameters) && state == old(state)
      ensures forall other :: other in parameters && other != id ==>
                parameters[other].Content() == old(parameters[other].Content())
      ensures id in parameters ==>
                parameters[id].Content() == Merged(parameters[id].limits, old(parameters[id].Content()), update)
      ensures errorParameters
              == if id in parameters && parameters[id].error != "" then old(errorParameters) + {id}
                 else old(errorParameters) - {id}
      ensures old(Safe()) ==>
                (Safe() <==> state != Running || id !in parameters || Skipped(old(parameters[id].value), update)
                             || Satisfies(parameters[id].limits, update))
    {
      if id !in parameters {
        assert errorParameters == errorParameters - {id};
        return;
      }
      ghost var known := parameters.Values;
      assert parameters[id] in known;
      MergeWatches(parameters[id].limits, parameters[id].Content(), update);
      var valid := parameters[id].Merge(update);
      if valid {
        errorParameters := errorParameters - {id};
      } else {
        errorParameters := errorParameters + {id};
        assert id in errorParameters;
      }
    }

    /** Merges a map of updates, one parameter after another. */
    method MergeParameters(updates: map<Id, Value>)
      requires Valid()
      modifies this`errorParameters, parameters.Values
      ensures Valid() && parameters == old(parameters) && state == old(state)
      ensures forall id :: id in parameters ==>
                parameters[id].Content()
                == if id in updates then Merged(parameters[id].limits, old(parameters[id].Content()), updates[id])
                   else old(parameters[id].Content())
    {
      var left := updates;
      while left != map[]
        invariant Valid() && parameters == old(parameters)
        invariant forall id :: id in left ==> id in updates && left[id] == updates[id]
        invariant forall id :: id in parameters ==>
                    parameters[id].Content()
                    == if id in updates && id !in left
                       then Merged(parameters[id].limits, old(parameters[id].Content()), updates[id])
                       else old(parameters[id].Content())
        decreases |left|
      {
        var item :| item in left.Items;
        MergeParameter(item.0, item.1);
        left := left - {item.0};
      }
    }

    /** Sets an error from outside. A running application never stays safe by it. */
    method SetCustomError(id: Id, text: string)
      requires Valid()
      modifies this`errorParameters, parameters.Values
      ensures Valid() && parameters == old(parameters) && state == old(state)
      ensures forall other :: other in parameters ==>
                parameters[other].value == old(parameters[other].value)
                && (other != id ==> parameters[other].error == old(parameters[other].error))
      ensures errorParameters == if id in parameters then old(errorParameters) + {id} else old(errorParameters)
      ensures old(Safe()) ==> (Safe() <==> state != Running || id !in parameters)
    {
      if id !in parameters {
        return;
      }
      assert parameters[id] in parameters.Values;
      if parameters[id].error == "" {
        parameters[id].error := "custom error: " + text;
        errorParameters := errorParameters + {id};
      } else {
        parameters[id].error := parameters[id].error + ". Custom error: " + text;
      }
      assert id in errorParameters;
    }

    method HandleRunRequest()
      requires Valid()
      modifies this`state
      ensures Valid() && (old(Safe()) ==> Safe())
      ensures state == if errorParameters == {} then Running else old(state)
    {
      if state == Running {
        return;
      }
      if errorParameters != {} {
        return;
      }
      state := Running;
    }

    method HandlePauseRequest()
      requires Valid()
      modifies this`state
      ensures Valid() && Safe() && state == if old(state) == Running then Paused else old(state)
    {
      if state != Running {
        return;
      }
      state := Paused;
    }

    /** A modification that leaves a parameter invalid pauses the application: it is safe after any. */
    method HandleModifyRequest(updates: map<Id, Value>)
      requires Valid()
      modifies this`errorParameters, this`state, parameters.Values
      ensures Valid() && Safe() && parameters == old(parameters)
      ensures state == if errorParameters != {} && old(state) == Running then Paused else old(state)
      ensures forall id :: id in parameters ==>
                parameters[id].Content()
                == if id in updates then Merged(parameters[id].limits, old(parameters[id].Content()), updates[id])
                   else old(parameters[id].Content())
    {
      MergeParameters(updates);
      if errorParameters == {} {
        return;
      }
      HandlePauseRequest();
    }
  }
}
