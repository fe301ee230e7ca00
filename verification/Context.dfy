/**
 Assembly of the token-bounded context sent to a provider: all system messages, then the
 longest run of most recent turn messages that fits.
 */
module Context {
  import opened Basics
  import opened Messages

  const U32_MAX: nat := 0xffff_ffff

  datatype Policy = Policy(maxTokens: u32, recentMessages: u32)

  /** Bytes a part contributes to the estimate. */
  function PartSize(p: Part): nat
  {
    match p
    case Text(text) => |text|
    case CallRequest(_, name, arguments) => |name| + |Rendered(arguments)| + 16
    case CallResult(_, output, error) => |Rendered(output)| + (if error.Some? then |error.value| else 0) + 8
  }

  function Size(parts: seq<Part>): nat
  {
    if parts == [] then 0 else Size(parts[..|parts| - 1]) + PartSize(parts[|parts| - 1])
  }

  /** ceil(size / 4) + 4, cast to 32 bits. */
  function EstimateTokens(m: Message): u32
  {
    ((Size(m.parts) + 3) / 4 + 4) % 0x1_0000_0000
  }

  function EstimateTotal(ms: seq<Message>): nat
  {
    if ms == [] then 0 else EstimateTotal(ms[..|ms| - 1]) + EstimateTokens(ms[|ms| - 1])
  }

  function WithRole(history: seq<Message>, system: bool): (r: seq<Message>)
    ensures |r| <= |history|
    ensures forall m :: m in r <==> m in history && (m.role == System) == system
  {
    if history == [] then []
    else
      var init, m := history[..|history| - 1], history[|history| - 1];
      assert history == init + [m];
      WithRole(init, system) + if (m.role == System) == system then [m] else []
  }

  function SaturatingSub(a: nat, b: nat): nat
  {
    if a < b then 0 else a - b
  }

  /** The last `n` messages fit the budget. */
  predicate Fits(ms: seq<Message>, n: nat, budget: nat)
    requires n <= |ms|
  {
    EstimateTotal(ms[|ms| - n..]) <= budget
  }

  lemma {:induction false} TotalConcat(a: seq<Message>, b: seq<Message>)
    ensures EstimateTotal(a + b) == EstimateTotal(a) + EstimateTotal(b)
  {
    if b == [] {
      assert a + b == a;
    } else {
      assert (a + b)[..|a + b| - 1] == a + b[..|b| - 1];
      TotalConcat(a, b[..|b| - 1]);
    }
  }

  lemma OneMore(ms: seq<Message>, n: nat)
    requires n < |ms|
    ensures EstimateTotal(ms[|ms| - n - 1..]) == EstimateTokens(ms[|ms| - n - 1]) + EstimateTotal(ms[|ms| - n..])
  {
    var k := |ms| - n - 1;
    assert ms[k..] == [ms[k]] + ms[k + 1..];
    TotalConcat([ms[k]], ms[k + 1..]);
    assert [ms[k]][..0] == [];
  }

  function Reversed(s: seq<Message>): (r: seq<Message>)
    ensures |r| == |s| && forall k :: 0 <= k < |s| ==> r[k] == s[|s| - 1 - k]
  {
    seq(|s|, k requires 0 <= k < |s| => s[|s| - 1 - k])
  }

  /** `kept` is the longest run of most recent candidates that fits the budget. */
  ghost predicate Longest(candidates: seq<Message>, budget: nat, kept: seq<Message>)
  {
    && |kept| <= |candidates| && kept == candidates[|candidates| - |kept|..]
    && Fits(candidates, |kept|, budget)
    && forall n :: |kept| < n <= |candidates| ==> !Fits(candidates, n, budget)
  }

  /** Collects from the newest backwards until one does not fit, then restores the order. The
      saturating test cannot see an overflow when the budget is the largest 32-bit number;
      the addition after it then overflows. */
  method NewestThatFit(candidates: seq<Message>, budget: u32) returns (overflow: bool, kept: seq<Message>)
    ensures !overflow ==> Longest(candidates, budget, kept)
    ensures overflow <==> budget == U32_MAX && EstimateTotal(candidates) > U32_MAX
  {
    hide EstimateTokens, EstimateTotal;
    TotalNone();
    var reversed: seq<Message> := [];
    var used: u32 := 0;
    var i := |candidates|;
    assert candidates[i..] == [] && candidates[0..] == candidates;
    while i > 0
      invariant 0 <= i <= |candidates| && |reversed| == |candidates| - i
      invariant forall k :: 0 <= k < |reversed| ==> reversed[k] == candidates[|candidates| - 1 - k]
      invariant used == EstimateTotal(candidates[i..]) <= budget
    {
      var t := EstimateTokens(candidates[i - 1]);
      OneMore(candidates, |reversed|);
      MoreCostsMore(candidates, |reversed| + 1, |candidates|);
      if SaturatingAdd(used, t) > budget {
        break;
      }
      if used + t > U32_MAX {
        return true, [];
      }
      used := used + t;
      reversed := reversed + [candidates[i - 1]];
      i := i - 1;
    }
    kept := Reversed(reversed);
    assert kept == candidates[i..];
    forall n | |kept| < n <= |candidates| ensures !Fits(candidates, n, budget) {
      MoreCostsMore(candidates, |kept| + 1, n);
    }
    overflow := false;
  }

  function SaturatingAdd(a: u32, b: u32): u32
  {
    if a + b > U32_MAX then U32_MAX else a + b
  }

  lemma {:induction false} MoreCostsMore(ms: seq<Message>, n: nat, m: nat)
    requires n <= m <= |ms|
    ensures EstimateTotal(ms[|ms| - n..]) <= EstimateTotal(ms[|ms| - m..])
  {
    if n < m {
      MoreCostsMore(ms, n, m - 1);
      OneMore(ms, m - 1);
    }
  }

  function LastOf(ms: seq<Message>, n: nat): (r: seq<Message>)
    ensures |r| == (if n < |ms| then n else |ms|) && r == ms[|ms| - |r|..]
  {
    ms[SaturatingSub(|ms|, n)..]
  }

  /** All system messages, then the longest run of recent turn messages that fits what the
      system messages leave of the budget. The result stays within `maxTokens` exactly when
      the system messages alone do. */
  method AssembleContext(history: seq<Message>, policy: Policy) returns (overflow: bool, r: seq<Message>)
    ensures overflow <==>
      var system, candidates := EstimateTotal(WithRole(history, true)), LastOf(WithRole(history, false), policy.recentMessages);
      system > U32_MAX || (SaturatingSub(policy.maxTokens, system) == U32_MAX && EstimateTotal(candidates) > U32_MAX)
    ensures !overflow ==>
      var system := WithRole(history, true);
      var budget := SaturatingSub(policy.maxTokens, EstimateTotal(system));
      && |system| <= |r| && r[..|system|] == system
      && Longest(LastOf(WithRole(history, false), policy.recentMessages), budget, r[|system|..])
    ensures !overflow ==>
      (EstimateTotal(r) <= policy.maxTokens <==> EstimateTotal(WithRole(history, true)) <= policy.maxTokens)
  {
    var system := WithRole(history, true);
    var turns := WithRole(history, false);
    var systemTokens := EstimateTotal(system);
    if systemTokens > U32_MAX {
      return true, [];
    }
    var budget: u32 := SaturatingSub(policy.maxTokens, systemTokens);
    var candidates := LastOf(turns, policy.recentMessages);
    var kept;
    overflow, kept := NewestThatFit(candidates, budget);
    if overflow {
      return true, [];
    }
    r := system + kept;
    assert r[|system|..] == kept;
    TotalConcat(system, kept);
  }

  lemma TotalNone()
    ensures EstimateTotal([]) == 0
  {
  }

  // ----- what the estimate and the selection mean -----

  lemma {:induction false} SizeConcat(a: seq<Part>, b: seq<Part>)
    ensures Size(a + b) == Size(a) + Size(b)
  {
    if b == [] {
      assert a + b == a;
    } else {
      assert (a + b)[..|a + b| - 1] == a + b[..|b| - 1];
      SizeConcat(a, b[..|b| - 1]);
    }
  }

  /** A part counts its text, or its name and rendered arguments and 16, or its rendered output and
      its error and 8. */
  lemma SizeOfOne(p: Part)
    ensures p.Text? ==> Size([p]) == |p.text|
    ensures p.CallRequest? ==> Size([p]) == |p.name + Rendered(p.arguments)| + 16
    ensures p.CallResult? ==> Size([p]) == |Rendered(p.output) + (if p.error.Some? then p.error.value else "")| + 8
  {
    assert [p][..0] == [];
  }

  /** Four bytes to a token, rounded up, and four tokens for the frame. */
  lemma EstimateIsCeiling(m: Message)
    requires Size(m.parts) < 0x1_0000_0000
    ensures EstimateTokens(m) >= 4 && 4 * (EstimateTokens(m) - 4) - 3 <= Size(m.parts) <= 4 * (EstimateTokens(m) - 4)
  {
  }

  /** Selecting by role keeps the order of the conversation and repeats nothing. */
  lemma {:induction false} WithRoleConcat(a: seq<Message>, b: seq<Message>, system: bool)
    ensures WithRole(a + b, system) == WithRole(a, system) + WithRole(b, system)
  {
    if b == [] {
      assert a + b == a;
    } else {
      assert (a + b)[..|a + b| - 1] == a + b[..|b| - 1];
      WithRoleConcat(a, b[..|b| - 1], system);
    }
  }

  lemma WithRoleOfOne(m: Message, system: bool)
    ensures WithRole([m], system) == if (m.role == System) == system then [m] else []
  {
    assert [m][..0] == [];
  }
}
