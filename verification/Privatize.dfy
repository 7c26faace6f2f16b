// Feature privatisation: the budget is charged first, then every feature with a policy
// is clipped to its domain, given noise and clamped again.

module Privatize {
  import opened Basics
  import opened PrivacyBudget

  datatype Policy = Policy(name: string, lower: int, upper: int)

  /** DP_FEATURE_POLICY; every sensitivity is the width of the domain. */
  const POLICIES: seq<Policy> := [
    Policy("file_size_mb", 0, 1000),
    Policy("hour_of_day", 0, 23),
    Policy("transfers_last_hour", 0, 500),
    Policy("mfa_failed_attempts", 0, 20),
    Policy("failed_login_attempts", 0, 20),
    Policy("is_unusual_hour", 0, 1)
  ]

  datatype Value = Integer(i: int) | Float(x: real)

  function ToReal(v: Value): real {
    match v
    case Integer(i) => i as real
    case Float(x) => x
  }

  function Clip(lower: int, upper: int, x: real): real {
    var low := if x < upper as real then x else upper as real;
    if low < lower as real then lower as real else low
  }

  /** Python's round: to the nearest integer, ties to even. */
  function Round(x: real): int {
    var f := x.Floor;
    var d := x - f as real;
    if d < 0.5 then f else if d > 0.5 then f + 1 else if f % 2 == 0 then f else f + 1
  }

  function Protect(p: Policy, v: Value, noise: real): Value {
    var noisy := Clip(p.lower, p.upper, Clip(p.lower, p.upper, ToReal(v)) + noise);
    if v.Integer? then Integer(Round(noisy)) else Float(noisy)
  }

  predicate InDomain(p: Policy, v: Value) {
    p.lower as real <= ToReal(v) <= p.upper as real
  }

  lemma RoundStays(lower: int, upper: int, x: real)
    requires lower as real <= x <= upper as real
    ensures lower <= Round(x) <= upper
  {
    assert x.Floor as real <= x < (x.Floor + 1) as real;
  }

  /** Whatever the noise, the result is in the feature's domain and of the raw value's kind. */
  lemma Protected(p: Policy, v: Value, noise: real)
    requires p.lower <= p.upper
    ensures InDomain(p, Protect(p, v, noise)) && (Protect(p, v, noise).Integer? <==> v.Integer?)
  {
    RoundStays(p.lower, p.upper, Clip(p.lower, p.upper, Clip(p.lower, p.upper, ToReal(v)) + noise));
  }

  /** Before rounding, two raw values end up at most the sensitivity apart under the same noise,
      however far apart they were; values that clip alike end up equal. */
  lemma Sensitivity(p: Policy, x: real, y: real, noise: real)
    requires p.lower <= p.upper
    ensures var fx, fy := Protect(p, Float(x), noise).x, Protect(p, Float(y), noise).x;
            && fx - fy <= (p.upper - p.lower) as real
            && (x <= y ==> fx <= fy && fy - fx <= Clip(p.lower, p.upper, y) - Clip(p.lower, p.upper, x))
  {
  }

  /** The raw value moved into the domain, plus the noise. */
  function NoisySum(p: Policy, v: Value, noise: real): real {
    noise + if ToReal(v) < p.lower as real then p.lower as real
            else if ToReal(v) > p.upper as real then p.upper as real
            else ToReal(v)
  }

  /** `out` is what a feature with this noise is released as: the noisy sum while that is in the domain, to
      the nearest integer and ties to even for an integer feature; the bound it passed otherwise. */
  predicate Released(p: Policy, v: Value, noise: real, out: Value) {
    var sum := NoisySum(p, v, noise);
    && (out.Integer? <==> v.Integer?)
    && (sum < p.lower as real ==> ToReal(out) == p.lower as real)
    && (sum > p.upper as real ==> ToReal(out) == p.upper as real)
    && (p.lower as real <= sum <= p.upper as real ==>
          match out
          case Float(x) => x == sum
          case Integer(i) => -0.5 <= i as real - sum <= 0.5 && (i as real - sum in {-0.5, 0.5} ==> i % 2 == 0))
  }

  lemma ClipNearest(lower: int, upper: int, x: real)
    requires lower <= upper
    ensures Clip(lower, upper, x) == if x < lower as real then lower as real
                                     else if x > upper as real then upper as real else x
  {}

  lemma RoundNearest(x: real)
    ensures -0.5 <= Round(x) as real - x <= 0.5
    ensures Round(x) as real - x in {-0.5, 0.5} ==> Round(x) % 2 == 0
  {}

  lemma RoundWhole(i: int)
    ensures Round(i as real) == i
  {}

  /** The clipping, the noise, the clamping and the rounding release just that. */
  lemma ProtectReleases(p: Policy, v: Value, noise: real)
    requires p.lower <= p.upper
    ensures Released(p, v, noise, Protect(p, v, noise))
  {
    ClipNearest(p.lower, p.upper, ToReal(v));
    var sum := NoisySum(p, v, noise);
    assert sum == Clip(p.lower, p.upper, ToReal(v)) + noise;
    ClipNearest(p.lower, p.upper, sum);
    RoundNearest(sum);
    RoundWhole(p.lower);
    RoundWhole(p.upper);
  }

  lemma NearestMonotone(x: real, y: real, i: int, j: int)
    requires x <= y && -0.5 <= i as real - x <= 0.5 && -0.5 <= j as real - y <= 0.5
    requires (i as real - x in {-0.5, 0.5} ==> i % 2 == 0) && (j as real - y in {-0.5, 0.5} ==> j % 2 == 0)
    ensures i <= j
  {
    assert i as real - j as real <= 1.0;
    assert i <= j + 1 && (j + 1) % 2 != j % 2;
  }

  lemma NearestInside(lower: int, upper: int, x: real, i: int)
    requires lower as real <= x <= upper as real && -0.5 <= i as real - x <= 0.5
    requires i as real - x in {-0.5, 0.5} ==> i % 2 == 0
    ensures lower <= i <= upper
  {
    NearestMonotone(lower as real, x, lower, i);
    NearestMonotone(x, upper as real, i, upper);
  }

  lemma ReleasedInDomain(p: Policy, v: Value, noise: real, out: Value)
    requires p.lower <= p.upper && Released(p, v, noise, out)
    ensures InDomain(p, out)
  {
    var sum := NoisySum(p, v, noise);
    if p.lower as real <= sum <= p.upper as real && v.Integer? {
      NearestInside(p.lower, p.upper, sum, out.i);
    }
  }

  /** The release is monotone in the noise, and in the raw value. */
  lemma ReleaseMonotone(p: Policy, v: Value, v': Value, noise: real, noise': real, out: Value, out': Value)
    requires p.lower <= p.upper && Released(p, v, noise, out) && Released(p, v', noise', out')
    requires noise <= noise' && ToReal(v) <= ToReal(v') && (v.Integer? <==> v'.Integer?)
    ensures ToReal(out) <= ToReal(out')
  {
    var sum, sum' := NoisySum(p, v, noise), NoisySum(p, v', noise');
    ReleasedInDomain(p, v, noise, out);
    ReleasedInDomain(p, v', noise', out');
    assert sum <= sum';
    if p.lower as real <= sum <= sum' <= p.upper as real && v.Integer? {
      NearestMonotone(sum, sum', out.i, out'.i);
    }
  }

  /** Only one value is released. */
  lemma ReleasedOnce(p: Policy, v: Value, noise: real, out: Value, out': Value)
    requires p.lower <= p.upper && Released(p, v, noise, out) && Released(p, v, noise, out')
    ensures out == out'
  {
    ReleaseMonotone(p, v, v, noise, noise, out, out');
    ReleaseMonotone(p, v, v, noise, noise, out', out);
  }

  /** Every value of the domain and the feature's kind is the release of any raw value under some noise. */
  lemma AnyValue(p: Policy, v: Value, out: Value) returns (noise: real)
    requires InDomain(p, out) && (out.Integer? <==> v.Integer?)
    ensures Released(p, v, noise, out)
  {
    noise := ToReal(out) - NoisySum(p, v, 0.0);
  }

  function Names(): set<string> {
    set p | p in POLICIES :: p.name
  }

  ghost predicate Privatized(raw: map<string, Value>, out: map<string, Value>, noise: string -> real) {
    && out.Keys == raw.Keys
    && (forall p :: p in POLICIES && p.name in raw ==> Released(p, raw[p.name], noise(p.name), out[p.name]))
    && (forall name :: name in raw && name !in Names() ==> out[name] == raw[name])
  }

  /** The features of a release are of the raw kinds, in their domains where they have a policy and the raw ones
      where they have none. */
  ghost predicate Releasable(raw: map<string, Value>, out: map<string, Value>) {
    && out.Keys == raw.Keys
    && (forall p :: p in POLICIES && p.name in raw ==>
          InDomain(p, out[p.name]) && (out[p.name].Integer? <==> raw[p.name].Integer?))
    && (forall name :: name in raw && name !in Names() ==> out[name] == raw[name])
  }

  ghost function PolicyNamed(name: string): (p: Policy)
    requires name in Names()
    ensures p in POLICIES && p.name == name
  {
    var p :| p in POLICIES && p.name == name;
    p
  }

  /** The noise under which the release of these raw features is `out`. */
  ghost function NoiseTo(raw: map<string, Value>, out: map<string, Value>, name: string): real {
    if name in raw && name in out && name in Names()
        then ToReal(out[name]) - NoisySum(PolicyNamed(name), raw[name], 0.0)
    else 0.0
  }

  lemma NamedOnce(p: Policy, q: Policy)
    requires p in POLICIES && q in POLICIES && p.name == q.name
    ensures p == q
  {
    NamesDistinct();
    var i :| 0 <= i < |POLICIES| && POLICIES[i] == p;
    var j :| 0 <= j < |POLICIES| && POLICIES[j] == q;
  }

  /** Whatever the raw features, every releasable map is their one release under some noise: a release rules
      out no raw value. */
  lemma AnyRelease(raw: map<string, Value>, out: map<string, Value>) returns (noise: string -> real)
    requires Releasable(raw, out)
    ensures Privatized(raw, out, noise) && forall other :: Privatized(raw, other, noise) ==> other == out
  {
    noise := (name: string) => NoiseTo(raw, out, name);
    forall p | p in POLICIES && p.name in raw ensures Released(p, raw[p.name], noise(p.name), out[p.name]) {
      NamedOnce(p, PolicyNamed(p.name));
    }
    forall other | Privatized(raw, other, noise) ensures other == out {
      SameRelease(raw, noise, other, out);
    }
  }

  lemma PoliciesProper()
    ensures forall p :: p in POLICIES ==> p.lower <= p.upper
  {}

  lemma SameRelease(raw: map<string, Value>, noise: string -> real, out: map<string, Value>, out': map<string, Value>)
    requires Privatized(raw, out, noise) && Privatized(raw, out', noise)
    ensures out == out'
  {
    PoliciesProper();
    forall name | name in raw ensures out[name] == out'[name] {
      if name in Names() {
        var p := PolicyNamed(name);
        ReleasedOnce(p, raw[name], noise(name), out[name], out'[name]);
      }
    }
  }

  /** More noise never releases less, in any feature. */
  lemma MonotoneRelease(raw: map<string, Value>, noise: string -> real, noise': string -> real,
                        out: map<string, Value>, out': map<string, Value>, name: string)
    requires Privatized(raw, out, noise) && Privatized(raw, out', noise') && noise(name) <= noise'(name)
    requires name in raw
    ensures ToReal(out[name]) <= ToReal(out'[name])
  {
    if name in Names() {
      PoliciesProper();
      ReleaseMonotone(PolicyNamed(name), raw[name], raw[name], noise(name), noise'(name), out[name], out'[name]);
    }
  }

  class DifferentialPrivacyService {
    const enabled: bool
    const epsilonPerAnalysis: real
    const accountant: PrivacyBudgetAccountant

    constructor (enabled: bool, epsilonPerAnalysis: real, accountant: PrivacyBudgetAccountant)
      ensures this.enabled == enabled && this.epsilonPerAnalysis == epsilonPerAnalysis && this.accountant == accountant
    {
      this.enabled, this.epsilonPerAnalysis, this.accountant := enabled, epsilonPerAnalysis, accountant;
    }

    /** privatize_features; None when the budget does not allow the analysis or epsilon is not positive. */
    method PrivatizeFeatures(user: string, raw: map<string, Value>, id: string, cls: Class, now: real, reply: Reply,
                             noise: string -> real)
      returns (out: Option<map<string, Value>>)
      requires accountant.settings.epochHours > 0 && now >= 0.0
      modifies accountant, accountant.redis
      ensures !enabled ==> out == Some(raw) && accountant.View() == old(accountant.View())
      ensures enabled && epsilonPerAnalysis <= 0.0 ==> out == None && accountant.View() == old(accountant.View())
      ensures enabled && epsilonPerAnalysis > 0.0 ==>
        Epoch(now, accountant.settings.epochHours).0 >= 0 &&
        var r := Request(BudgetKey(user, Epoch(now, accountant.settings.epochHours).0),
                         Call(id, Micro(epsilonPerAnalysis), cls), reply);
        var x := Step(old(accountant.View()), r, accountant.Budget());
        && accountant.View() == x.0 && (out.Some? <==> x.1.Granted?)
        && (out.Some? ==> Privatized(raw, out.value, noise))
    {
      if !enabled {
        return Some(raw);
      }
      var granted := accountant.ConsumeBudget(user, epsilonPerAnalysis, id, cls, now, reply);
      if granted.None? || granted.value.Exhausted? {
        return None;
      }
      var privatized := NoiseAll(raw, noise);
      return Some(privatized);
    }

    method NoiseAll(raw: map<string, Value>, noise: string -> real) returns (out: map<string, Value>)
      ensures Privatized(raw, out, noise)
    {
      out := raw;
      for k := 0 to |POLICIES|
        invariant out.Keys == raw.Keys
        invariant forall j :: 0 <= j < k && POLICIES[j].name in raw ==>
          Released(POLICIES[j], raw[POLICIES[j].name], noise(POLICIES[j].name), out[POLICIES[j].name])
        invariant forall name :: name in raw && (forall j :: 0 <= j < k ==> POLICIES[j].name != name) ==>
            out[name] == raw[name]
      {
        NamesDistinct();
        var p := POLICIES[k];
        if p.name in out {
          PoliciesProper();
          ProtectReleases(p, out[p.name], noise(p.name));
          out := out[p.name := Protect(p, out[p.name], noise(p.name))];
        }
      }
    }
  }

  lemma NamesDistinct()
    ensures forall i, j :: 0 <= i < j < |POLICIES| ==> POLICIES[i].name != POLICIES[j].name
  {
    assert forall i :: 0 <= i < |POLICIES| ==> POLICIES[i].name[0] in ['f', 'h', 't', 'm', 'i'];
    assert |POLICIES[0].name| == 12 && |POLICIES[4].name| == 21;
  }
}
