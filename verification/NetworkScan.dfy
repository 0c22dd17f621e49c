/** Expanding scan targets under a cap (src/services/network-scan.ts:52-80). */
module NetworkScan {
  import opened Powers
  import opened Text
  import opened Wrappers
  import opened Addresses

  type PrefixLength = b: nat | b <= 32

  datatype Target =
    | Blank
    | Single(ip: string)
    | Block(network: nat, bits: PrefixLength)
    | BadAddress
    | BadBlock

  datatype ScanError =
    | InvalidTarget(target: string)
    | InvalidCidr(target: string)
    | BlockOverCap(target: string, size: nat)
    | ScanOverCap

  /** The notations of `Number` that `JsInteger` leaves open. */
  type Numbers = string -> Option<int>

  /** What a trimmed, non-empty target denotes. */
  function TargetOf(t: string, other: Numbers): (r: Target)
    ensures !r.Blank?
  {
    var slash := IndexOf(t, '/');
    if slash < 0 then if AddressOf(t).None? then BadAddress else Single(t)
    else
      var bits := JsInteger(t[slash + 1..], other);
      var base := AddressOf(t[..slash]);
      if base.None? || bits.None? || bits.value < 0 || bits.value > 32 then BadBlock
      else Block(And(base.value, Mask(32 - bits.value)), bits.value)
  }

  function ParseTarget(raw: string, other: Numbers): Target {
    if Trim(raw) == "" then Blank else TargetOf(Trim(raw), other)
  }

  function Size(bits: PrefixLength): nat { Pow2(32 - bits) }

  /** The first `n` addresses from `network` on, as text. */
  function Listed(network: nat, n: nat): (r: seq<string>)
    ensures |r| == n && forall i :: 0 <= i < n ==> r[i] == IntToIp(network + i)
  {
    seq(n, i requires 0 <= i < n => IntToIp(network + i))
  }

  /** What a target adds, in the order it is added. */
  function Added(t: Target): seq<string> {
    if t.Single? then [t.ip]
    else if t.Block? then Listed(t.network, Size(t.bits))
    else []
  }

  /** A JavaScript `Set` keeps the order of first insertion. */
  function Add(out: seq<string>, ip: string): seq<string> { if ip in out then out else out + [ip] }

  function AddAll(out: seq<string>, ips: seq<string>): seq<string> {
    if ips == [] then out else Add(AddAll(out, ips[..|ips| - 1]), ips[|ips| - 1])
  }

  function Union(targets: seq<string>, other: Numbers): seq<string> {
    if targets == [] then []
    else
      var n := |targets| - 1;
      AddAll(Union(targets[..n], other), Added(ParseTarget(targets[n], other)))
  }

  function Step(out: seq<string>, text: string, t: Target, cap: nat): Result<seq<string>, ScanError> {
    if t.BadAddress? then Err(InvalidTarget(text))
    else if t.BadBlock? then Err(InvalidCidr(text))
    else if t.Block? && Size(t.bits) > cap then Err(BlockOverCap(text, Size(t.bits)))
    else if |AddAll(out, Added(t))| > cap then Err(ScanOverCap)
    else Ok(AddAll(out, Added(t)))
  }

  /** Why target `k` ends the expansion, if it does. */
  function Refusal(targets: seq<string>, k: nat, cap: nat, other: Numbers): Option<ScanError>
    requires k < |targets|
  {
    var step := Step(Union(targets[..k], other), Trim(targets[k]), ParseTarget(targets[k], other), cap);
    if step.Err? then Some(step.error) else None
  }

  /** Why a target is refused: a text without a slash that is no address, one with a slash that is no block, a block
      larger than the cap with its size, or one more than the cap in all. The text is the target's, trimmed. */
  lemma RefusalSaysWhy(targets: seq<string>, k: nat, cap: nat, other: Numbers)
    requires k < |targets|
    ensures var (t, why) := (Trim(targets[k]), Refusal(targets, k, cap, other));
            && (why == Some(InvalidTarget(t)) <==> t != "" && '/' !in t && AddressOf(t) == None)
            && (why == Some(InvalidCidr(t)) <==> '/' in t && ParseTarget(targets[k], other).BadBlock?)
            && (why.Some? && why.value.BlockOverCap? <==>
                  ParseTarget(targets[k], other).Block? && Pow2(32 - ParseTarget(targets[k], other).bits) > cap)
            && (why.Some? && why.value.BlockOverCap? ==>
                  why.value == BlockOverCap(t, Pow2(32 - ParseTarget(targets[k], other).bits)))
            && (why == Some(ScanOverCap) <==>
                  && !(why.Some? && (why.value.InvalidTarget? || why.value.InvalidCidr? || why.value.BlockOverCap?))
                  && |Union(targets[..k + 1], other)| > cap)
  {
    assert targets[..k + 1][..k] == targets[..k] && targets[..k + 1][k] == targets[k];
    TargetIs(targets[k], other);
    StepSaysWhy(Union(targets[..k], other), Trim(targets[k]), ParseTarget(targets[k], other), cap);
    hide Step, ParseTarget, AddAll, AddressOf, Trim, Added, Size;
  }

  lemma TargetIs(raw: string, other: Numbers)
    ensures var (t, p) := (Trim(raw), ParseTarget(raw, other));
            && (p.BadAddress? <==> t != "" && '/' !in t && AddressOf(t) == None)
            && (p.BadBlock? ==> '/' in t)
  {
    hide Trim, AddressOf, JsInteger, And, Mask;
    assert AddressOf(Trim(raw)) == None || AddressOf(Trim(raw)).Some?;
    assert IndexOf(Trim(raw), '/') < 0 <==> '/' !in Trim(raw);
  }

  lemma StepSaysWhy(out: seq<string>, text: string, t: Target, cap: nat)
    ensures var r := Step(out, text, t, cap);
            && (r == Err(InvalidTarget(text)) <==> t.BadAddress?)
            && (r == Err(InvalidCidr(text)) <==> t.BadBlock?)
            && (r.Err? && r.error.BlockOverCap? <==> t.Block? && Pow2(32 - t.bits) > cap)
            && (r.Err? && r.error.BlockOverCap? ==> r.error == BlockOverCap(text, Pow2(32 - t.bits)))
            && (r == Err(ScanOverCap) <==>
                  && !(r.Err? && (r.error.InvalidTarget? || r.error.InvalidCidr? || r.error.BlockOverCap?))
                  && |AddAll(out, Added(t))| > cap)
            && (r.Err? && r.error.InvalidTarget? ==> r.error.target == text)
            && (r.Err? && r.error.InvalidCidr? ==> r.error.target == text)
  {
    hide AddAll, Added;
  }

  predicate FirstRefusal(targets: seq<string>, k: nat, cap: nat, other: Numbers, error: ScanError) {
    && k < |targets| && Refusal(targets, k, cap, other) == Some(error)
    && NoRefusal(targets, k, cap, other)
  }

  // ------------------------------------------------------------------
  // The loops
  // ------------------------------------------------------------------

  lemma AddOne(out: seq<string>, ip: string)
    ensures AddAll(out, [ip]) == Add(out, ip)
  {
    assert [ip][..0] == [] && AddAll(out, [ip][..0]) == out;
  }

  method AddBlock(out: seq<string>, network: nat, size: nat) returns (more: seq<string>)
    ensures more == AddAll(out, Listed(network, size))
  {
    more := out;
    assert Listed(network, 0) == [];
    for i := 0 to size
      invariant more == AddAll(out, Listed(network, i))
    {
      assert Listed(network, i + 1)[..i] == Listed(network, i);
      more := Add(more, IntToIp(network + i));
    }
  }

  method ReadTarget(t: string, other: Numbers) returns (r: Target)
    ensures r == TargetOf(t, other)
  {
    hide And, Mask, AddressOf, JsInteger, IndexOf;
    var slash := IndexOf(t, '/');
    if slash < 0 {
      var single := IpToInt(t);
      return if single.None? then BadAddress else Single(t);
    }
    var base := IpToInt(t[..slash]);
    var bits := JsInteger(t[slash + 1..], other);
    if base.None? || bits.None? || bits.value < 0 || bits.value > 32 { return BadBlock; }
    r := Block(And(base.value, Mask(32 - bits.value)), bits.value);
  }

  /** One round of the loop, on a target that is not blank. */
  method ExpandTarget(out: seq<string>, text: string, target: Target, cap: nat)
    returns (r: Result<seq<string>, ScanError>)
    requires !target.Blank?
    ensures r == Step(out, text, target, cap)
  {
    hide Pow2, AddAll, Listed;
    var more := out;
    match target {
      case BadAddress => return Err(InvalidTarget(text));
      case BadBlock => return Err(InvalidCidr(text));
      case Single(ip) =>
        AddOne(out, ip);
        more := Add(out, ip);
      case Block(network, bits) =>
        var size := Pow2(32 - bits);
        if size > cap { return Err(BlockOverCap(text, size)); }
        more := AddBlock(out, network, size);
    }
    r := if |more| > cap then Err(ScanOverCap) else Ok(more);
  }

  lemma UnionSnoc(targets: seq<string>, k: nat, other: Numbers)
    requires k < |targets|
    ensures Union(targets[..k + 1], other) == AddAll(Union(targets[..k], other), Added(ParseTarget(targets[k], other)))
  {
    assert targets[..k + 1][..k] == targets[..k] && targets[..k + 1][k] == targets[k];
  }

  predicate NoRefusal(targets: seq<string>, k: nat, cap: nat, other: Numbers) {
    k <= |targets| && forall j :: 0 <= j < k ==> Refusal(targets, j, cap, other) == None
  }

  lemma NothingYet(targets: seq<string>, cap: nat, other: Numbers)
    ensures Union(targets[..0], other) == [] && NoRefusal(targets, 0, cap, other)
  {
  }

  lemma Accepted(targets: seq<string>, k: nat, cap: nat, other: Numbers, out: seq<string>)
    requires k < |targets| && NoRefusal(targets, k, cap, other)
    requires Step(Union(targets[..k], other), Trim(targets[k]), ParseTarget(targets[k], other), cap) == Ok(out)
    ensures out == Union(targets[..k + 1], other) && |out| <= cap
    ensures NoRefusal(targets, k + 1, cap, other)
  {
    UnionSnoc(targets, k, other);
    StepTells(Union(targets[..k], other), Trim(targets[k]), ParseTarget(targets[k], other), cap);
    assert Refusal(targets, k, cap, other) == None;
    hide Union, Step, ParseTarget, AddAll, Added, Trim, Refusal;
  }

  lemma StepTells(out: seq<string>, text: string, t: Target, cap: nat)
    ensures var r := Step(out, text, t, cap); r.Ok? ==> r.value == AddAll(out, Added(t)) && |r.value| <= cap
  {
    hide AddAll, Added;
  }

  lemma Refused(targets: seq<string>, k: nat, cap: nat, other: Numbers, error: ScanError)
    requires k < |targets| && NoRefusal(targets, k, cap, other)
    requires Step(Union(targets[..k], other), Trim(targets[k]), ParseTarget(targets[k], other), cap) == Err(error)
    ensures FirstRefusal(targets, k, cap, other, error)
  {
  }

  lemma BlankRound(targets: seq<string>, k: nat, cap: nat, other: Numbers)
    requires k < |targets| && |Union(targets[..k], other)| <= cap && Trim(targets[k]) == ""
    requires NoRefusal(targets, k, cap, other)
    ensures Union(targets[..k + 1], other) == Union(targets[..k], other)
    ensures NoRefusal(targets, k + 1, cap, other)
  {
    UnionSnoc(targets, k, other);
    assert ParseTarget(targets[k], other) == Blank;
  }

  /** The expansion stops at the first target that is refused, with its error; when none is, it yields the
      union in order of first appearance. */
  method ExpandTargets(targets: seq<string>, cap: nat, other: Numbers) returns (r: Result<seq<string>, ScanError>)
    ensures r.Ok? ==> r.value == Union(targets, other) && NoRefusal(targets, |targets|, cap, other)
    ensures r.Err? ==> exists k :: FirstRefusal(targets, k, cap, other, r.error)
  {
    hide Step, Union, Refusal, FirstRefusal, TargetOf, Trim;
    NothingYet(targets, cap, other);
    var out := [];
    for k := 0 to |targets|
      invariant out == Union(targets[..k], other) && |out| <= cap
      invariant NoRefusal(targets, k, cap, other)
    {
      var t := Trim(targets[k]);
      if t == "" {
        BlankRound(targets, k, cap, other);
        continue;
      }
      var target := ReadTarget(t, other);
      assert target == ParseTarget(targets[k], other);
      var next := ExpandTarget(out, t, target, cap);
      if next.Err? {
        Refused(targets, k, cap, other, next.error);
        return next;
      }
      Accepted(targets, k, cap, other, next.value);
      out := next.value;
    }
    assert targets[..|targets|] == targets;
    r := Ok(out);
  }
}
