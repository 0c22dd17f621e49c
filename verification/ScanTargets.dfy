/** What expanding scan targets means: when it succeeds, and which addresses it lists
    (src/services/network-scan.ts:52-80). */
module ScanTargets {
  import opened Sequences
  import opened Text
  import opened Wrappers
  import opened Addresses
  import opened NetworkScan

  // ------------------------------------------------------------------
  // The union, address by address
  // ------------------------------------------------------------------

  lemma {:induction false} AddAllKeeps(out: seq<string>, ips: seq<string>)
    requires NoRepeats(out)
    ensures NoRepeats(AddAll(out, ips))
    ensures out <= AddAll(out, ips)
    ensures forall ip :: ip in AddAll(out, ips) <==> ip in out || ip in ips
  {
    if ips != [] {
      var n := |ips| - 1;
      AddAllKeeps(out, ips[..n]);
      assert ips == ips[..n] + [ips[n]];
    }
  }

  /** What each target adds. */
  function Adds(targets: seq<string>, other: Numbers): (r: seq<seq<string>>)
    ensures |r| == |targets| && forall k :: 0 <= k < |r| ==> r[k] == Added(ParseTarget(targets[k], other))
  {
    seq(|targets|, k requires 0 <= k < |targets| => Added(ParseTarget(targets[k], other)))
  }

  function UnionOf(adds: seq<seq<string>>): seq<string> {
    if adds == [] then [] else AddAll(UnionOf(adds[..|adds| - 1]), adds[|adds| - 1])
  }

  lemma {:induction false} UnionIsOfAdds(targets: seq<string>, other: Numbers)
    ensures Union(targets, other) == UnionOf(Adds(targets, other))
  {
    if targets != [] {
      var n := |targets| - 1;
      UnionIsOfAdds(targets[..n], other);
      assert Adds(targets, other)[..n] == Adds(targets[..n], other);
    }
  }

  predicate AddedBy(adds: seq<seq<string>>, ip: string) {
    exists k :: 0 <= k < |adds| && ip in adds[k]
  }

  lemma {:induction false} UnionOfIsExact(adds: seq<seq<string>>)
    ensures NoRepeats(UnionOf(adds))
    ensures forall ip :: ip in UnionOf(adds) <==> AddedBy(adds, ip)
  {
    if adds != [] {
      var n := |adds| - 1;
      UnionOfIsExact(adds[..n]);
      AddAllKeeps(UnionOf(adds[..n]), adds[n]);
      forall ip
        ensures AddedBy(adds, ip) <==> AddedBy(adds[..n], ip) || ip in adds[n]
      {
        if AddedBy(adds[..n], ip) {
          var k :| 0 <= k < n && ip in adds[..n][k];
          assert ip in adds[k];
        }
        if AddedBy(adds, ip) {
          var k :| 0 <= k < |adds| && ip in adds[k];
          assert k < n ==> ip in adds[..n][k];
        }
      }
    }
  }

  /** The list holds exactly what the targets add, each text once. */
  lemma UnionIsExact(targets: seq<string>, other: Numbers)
    ensures NoRepeats(Union(targets, other))
    ensures forall ip :: ip in Union(targets, other) <==> AddedBy(Adds(targets, other), ip)
  {
    UnionIsOfAdds(targets, other);
    UnionOfIsExact(Adds(targets, other));
  }

  lemma {:induction false} UnionOfGrows(adds: seq<seq<string>>, k: nat)
    requires k <= |adds|
    ensures UnionOf(adds[..k]) <= UnionOf(adds)
    decreases |adds|
  {
    var n := |adds| - 1;
    if k <= n {
      assert adds[..n][..k] == adds[..k];
      UnionOfGrows(adds[..n], k);
      UnionOfIsExact(adds[..n]);
      AddAllKeeps(UnionOf(adds[..n]), adds[n]);
    } else {
      assert adds[..k] == adds;
    }
  }

  lemma UnionGrows(targets: seq<string>, k: nat, other: Numbers)
    requires k <= |targets|
    ensures |Union(targets[..k], other)| <= |Union(targets, other)|
  {
    hide Union, UnionOf;
    UnionIsOfAdds(targets, other);
    UnionIsOfAdds(targets[..k], other);
    assert Adds(targets[..k], other) == Adds(targets, other)[..k];
    UnionOfGrows(Adds(targets, other), k);
  }

  // ------------------------------------------------------------------
  // When it succeeds
  // ------------------------------------------------------------------

  /** A target that the scan accepts by itself: it reads, and no block is larger than the cap. */
  predicate AcceptableTarget(t: Target, cap: nat) {
    !t.BadAddress? && !t.BadBlock? && (t.Block? ==> Size(t.bits) <= cap)
  }

  predicate Acceptable(raw: string, cap: nat, other: Numbers) { AcceptableTarget(ParseTarget(raw, other), cap) }

  predicate AllAcceptable(targets: seq<string>, cap: nat, other: Numbers) {
    forall k :: 0 <= k < |targets| ==> Acceptable(targets[k], cap, other)
  }

  lemma StepIff(out: seq<string>, text: string, t: Target, cap: nat)
    ensures Step(out, text, t, cap).Err? || Step(out, text, t, cap).Ok?
    ensures Step(out, text, t, cap).Ok? <==> AcceptableTarget(t, cap) && |AddAll(out, Added(t))| <= cap
  {
  }

  lemma RefusalIff(targets: seq<string>, k: nat, cap: nat, other: Numbers)
    requires k < |targets|
    ensures Refusal(targets, k, cap, other) == None
       <==> Acceptable(targets[k], cap, other) && |Union(targets[..k + 1], other)| <= cap
  {
    UnionSnoc(targets, k, other);
    StepIff(Union(targets[..k], other), Trim(targets[k]), ParseTarget(targets[k], other), cap);
  }

  /** The order of the targets does not decide the outcome: the expansion succeeds exactly when every target
      is acceptable and the final union fits under the cap. */
  lemma SucceedsIff(targets: seq<string>, cap: nat, other: Numbers)
    ensures NoRefusal(targets, |targets|, cap, other)
       <==> AllAcceptable(targets, cap, other) && |Union(targets, other)| <= cap
  {
    forall k | 0 <= k < |targets|
      ensures Refusal(targets, k, cap, other) == None
         <==> Acceptable(targets[k], cap, other) && |Union(targets[..k + 1], other)| <= cap
      ensures |Union(targets[..k + 1], other)| <= |Union(targets, other)|
    {
      RefusalIff(targets, k, cap, other);
      UnionGrows(targets, k + 1, other);
    }
    if NoRefusal(targets, |targets|, cap, other) && targets != [] {
      var n := |targets| - 1;
      assert Refusal(targets, n, cap, other) == None;
      assert targets[..n + 1] == targets;
    }
  }

  // ------------------------------------------------------------------
  // As addresses
  // ------------------------------------------------------------------

  /** The addresses a target denotes: the one it spells, or those that share its prefix. */
  predicate Denotes(raw: string, n: nat, other: Numbers) {
    var t := Trim(raw);
    var slash := IndexOf(t, '/');
    if slash < 0 then AddressOf(t) == Some(n)
    else
      var (base, bits) := (AddressOf(t[..slash]), JsInteger(t[slash + 1..], other));
      base.Some? && bits.Some? && 0 <= bits.value <= 32 && InBlock(n, base.value, bits.value)
  }

  /** A single address is written without leading zeros. */
  predicate Canonical(raw: string) {
    var t := Trim(raw);
    IndexOf(t, '/') < 0 && AddressOf(t).Some? ==> IntToIp(AddressOf(t).value) == t
  }

  /** `texts` are the printed forms of the addresses in `a`. */
  ghost predicate Prints(printed: nat -> string, texts: seq<string>, a: set<nat>) {
    && (forall n :: n in a ==> n < SPACE)
    && (forall n :: n in a ==> printed(n) in texts)
    && (forall ip :: ip in texts ==> PrintOf(printed, ip, a))
  }

  ghost predicate PrintOf(printed: nat -> string, ip: string, a: set<nat>) {
    exists n :: n in a && printed(n) == ip
  }

  predicate InRun(n: nat, network: nat, size: nat) { network <= n < network + size }

  function Run(network: nat, size: nat): set<nat> {
    set n: nat | n < network + size && InRun(n, network, size)
  }

  lemma RunIsPrinted(printed: nat -> string, texts: seq<string>, network: nat, size: nat)
    requires network + size <= SPACE
    requires |texts| == size && forall i :: 0 <= i < size ==> texts[i] == printed(network + i)
    ensures Prints(printed, texts, Run(network, size))
  {
    forall n | n in Run(network, size)
      ensures printed(n) in texts
    {
      assert texts[n - network] == printed(network + (n - network));
    }
    forall ip | ip in texts
      ensures PrintOf(printed, ip, Run(network, size))
    {
      var i :| 0 <= i < size && texts[i] == ip;
      assert network + i in Run(network, size);
    }
  }

  ghost function Denoted(raw: string, other: Numbers): set<nat> {
    set n: nat | n < SPACE && Denotes(raw, n, other)
  }

  ghost function BlockSet(base: nat, bits: PrefixLength): set<nat> {
    set n: nat | n < SPACE && InBlock(n, base, bits)
  }

  /** The parts of a target that is a block. */
  lemma BlockParts(raw: string, other: Numbers) returns (base: nat, bits: PrefixLength)
    requires ParseTarget(raw, other).Block?
    ensures base < SPACE && ParseTarget(raw, other) == Block(And(base, Mask(32 - bits)), bits)
    ensures Denoted(raw, other) == BlockSet(base, bits)
  {
    var t := Trim(raw);
    var slash := IndexOf(t, '/');
    base := AddressOf(t[..slash]).value;
    bits := JsInteger(t[slash + 1..], other).value;
    forall n: nat
      ensures Denotes(raw, n, other) <==> InBlock(n, base, bits)
    {
    }
  }

  lemma BlockSetIsARun(base: nat, bits: PrefixLength)
    requires base < SPACE
    ensures And(base, Mask(32 - bits)) + Size(bits) <= SPACE
    ensures BlockSet(base, bits) == Run(And(base, Mask(32 - bits)), Size(bits))
  {
    BlockIsARun(0, base, bits);
    forall n: nat
      ensures n in BlockSet(base, bits) <==> n in Run(And(base, Mask(32 - bits)), Size(bits))
    {
      BlockIsARun(n, base, bits);
    }
  }

  lemma BlockPrints(network: nat, bits: PrefixLength)
    requires network + Size(bits) <= SPACE
    ensures Prints(IntToIp, Added(Block(network, bits)), Run(network, Size(bits)))
  {
    RunIsPrinted(IntToIp, Listed(network, Size(bits)), network, Size(bits));
  }

  lemma BlockAdds(raw: string, other: Numbers)
    requires ParseTarget(raw, other).Block?
    ensures Prints(IntToIp, Added(ParseTarget(raw, other)), Denoted(raw, other))
  {
    var base, bits := BlockParts(raw, other);
    BlockSetIsARun(base, bits);
    BlockPrints(And(base, Mask(32 - bits)), bits);
  }

  /** A target adds the printed form of exactly the addresses it denotes. */
  lemma TargetAdds(raw: string, other: Numbers)
    requires Canonical(raw)
    ensures Prints(IntToIp, Added(ParseTarget(raw, other)), Denoted(raw, other))
  {
    if ParseTarget(raw, other).Block? {
      BlockAdds(raw, other);
    } else {
      PointAdds(raw, other);
    }
  }

  lemma PointAdds(raw: string, other: Numbers)
    requires Canonical(raw) && !ParseTarget(raw, other).Block?
    ensures Prints(IntToIp, Added(ParseTarget(raw, other)), Denoted(raw, other))
  {
    PointDenotes(raw, other);
    if ParseTarget(raw, other).Single? {
      var m := AddressOf(Trim(raw)).value;
      PointPrints(IntToIp, Trim(raw), m);
    }
  }

  lemma PointPrints(printed: nat -> string, ip: string, m: nat)
    requires m < SPACE && printed(m) == ip
    ensures Prints(printed, [ip], {m})
  {
    assert PrintOf(printed, ip, {m});
  }

  lemma PointDenotes(raw: string, other: Numbers)
    requires !ParseTarget(raw, other).Block?
    ensures var t := ParseTarget(raw, other);
            && (t.Single? ==> t.ip == Trim(raw) && IndexOf(t.ip, '/') < 0 && AddressOf(t.ip).Some?
                              && Denoted(raw, other) == {AddressOf(t.ip).value})
            && (!t.Single? ==> Added(t) == [] && Denoted(raw, other) == {})
  {
    var t := ParseTarget(raw, other);
    if t.Single? {
      SingleDenotes(raw, other);
    } else {
      EmptyIsNoAddress();
      assert forall n: nat :: !Denotes(raw, n, other);
    }
  }

  lemma SingleDenotes(raw: string, other: Numbers)
    requires ParseTarget(raw, other).Single?
    ensures ParseTarget(raw, other).ip == Trim(raw) && IndexOf(Trim(raw), '/') < 0 && AddressOf(Trim(raw)).Some?
    ensures Denoted(raw, other) == {AddressOf(Trim(raw)).value}
  {
    assert forall n: nat :: Denotes(raw, n, other) <==> AddressOf(Trim(raw)) == Some(n);
  }

  lemma EmptyIsNoAddress()
    ensures AddressOf("") == None
  {
    assert SplitOn("", '.') == [""];
  }

  ghost function AllDenoted(targets: seq<string>, other: Numbers): (r: seq<set<nat>>)
    ensures |r| == |targets| && forall k :: 0 <= k < |r| ==> r[k] == Denoted(targets[k], other)
  {
    seq(|targets|, k requires 0 <= k < |targets| => Denoted(targets[k], other))
  }

  ghost predicate InSome(sets: seq<set<nat>>, n: nat) {
    exists k :: 0 <= k < |sets| && n in sets[k]
  }

  ghost function AddressesOf(sets: seq<set<nat>>): set<nat> {
    set n: nat | n < SPACE && InSome(sets, n)
  }

  /** Every address that some target denotes. */
  ghost function AddressSet(targets: seq<string>, other: Numbers): set<nat> {
    AddressesOf(AllDenoted(targets, other))
  }

  /** The expansion is the printed union of the addresses and blocks, whatever the spelling of the blocks. */
  lemma ListsTheUnion(targets: seq<string>, other: Numbers)
    requires forall k :: 0 <= k < |targets| ==> Canonical(targets[k])
    ensures Prints(IntToIp, Union(targets, other), AddressSet(targets, other))
  {
    UnionIsExact(targets, other);
    forall n | n in AddressSet(targets, other)
      ensures IntToIp(n) in Union(targets, other)
    {
      var k :| 0 <= k < |targets| && n in AllDenoted(targets, other)[k];
      TargetAdds(targets[k], other);
      assert IntToIp(n) in Adds(targets, other)[k];
    }
    forall ip | ip in Union(targets, other)
      ensures PrintOf(IntToIp, ip, AddressSet(targets, other))
    {
      var k :| 0 <= k < |targets| && ip in Adds(targets, other)[k];
      TargetAdds(targets[k], other);
      assert PrintOf(IntToIp, ip, Denoted(targets[k], other));
      var n :| n in Denoted(targets[k], other) && IntToIp(n) == ip;
      assert n in AllDenoted(targets, other)[k];
    }
  }

  // ------------------------------------------------------------------
  // Texts and addresses
  // ------------------------------------------------------------------

  /** No two different texts of the list read as one address. */
  ghost predicate ReadApart(texts: seq<string>) { Apart(texts, AddressOf) }

  /** What a list of texts reads as. */
  ghost function Image(texts: seq<string>, read: string -> Option<nat>): set<nat> {
    set i | 0 <= i < |texts| && read(texts[i]).Some? :: read(texts[i]).value
  }

  ghost predicate Apart(texts: seq<string>, read: string -> Option<nat>) {
    forall i, j :: 0 <= i < j < |texts| && read(texts[i]).Some? ==> read(texts[i]) != read(texts[j])
  }

  ghost predicate AllRead(texts: seq<string>, read: string -> Option<nat>) {
    forall i :: 0 <= i < |texts| ==> read(texts[i]).Some?
  }

  lemma ImageSnoc(front: seq<string>, text: string, read: string -> Option<nat>)
    requires read(text).Some?
    ensures Image(front + [text], read) == Image(front, read) + {read(text).value}
  {
    var all := front + [text];
    forall n ensures n in Image(all, read) <==> n in Image(front, read) + {read(text).value} {
      if n in Image(all, read) {
        var i :| 0 <= i < |all| && read(all[i]).Some? && read(all[i]).value == n;
        assert i < |front| ==> front[i] == all[i];
      }
      if n in Image(front, read) {
        var i :| 0 <= i < |front| && read(front[i]).Some? && read(front[i]).value == n;
        assert all[i] == front[i];
      }
      if n == read(text).value { assert all[|front|] == text; }
    }
  }

  lemma ApartSnoc(front: seq<string>, text: string, read: string -> Option<nat>)
    requires AllRead(front, read) && read(text).Some?
    ensures Apart(front + [text], read) <==> Apart(front, read) && read(text).value !in Image(front, read)
  {
    var all := front + [text];
    forall i | 0 <= i < |front| ensures all[i] == front[i] {}
    if Apart(all, read) {
      forall i | 0 <= i < |front| ensures read(front[i]) != read(text) {
        assert read(all[i]) != read(all[|front|]);
      }
      forall i, j | 0 <= i < j < |front| ensures read(front[i]) != read(front[j]) {
        assert read(all[i]) != read(all[j]);
      }
    }
    if Apart(front, read) && read(text).value !in Image(front, read) {
      forall i, j | 0 <= i < j < |all| ensures read(all[i]) != read(all[j]) {
        if j == |front| { assert read(front[i]).value in Image(front, read); }
      }
    }
  }

  /** A list reads as at most as many addresses as it has texts, and as exactly as many if and only if no two
      of its texts read alike. */
  lemma {:induction false} ImageSize(texts: seq<string>, read: string -> Option<nat>)
    requires AllRead(texts, read)
    ensures |Image(texts, read)| <= |texts|
    ensures |Image(texts, read)| == |texts| <==> Apart(texts, read)
  {
    if texts == [] {
      assert Image(texts, read) == {};
    } else {
      var (front, last) := (texts[..|texts| - 1], texts[|texts| - 1]);
      assert texts == front + [last];
      forall i | 0 <= i < |front| ensures read(front[i]).Some? { assert front[i] == texts[i]; }
      ImageSize(front, read);
      ImageSnoc(front, last, read);
      ApartSnoc(front, last, read);
    }
  }

  /** What a target adds reads as exactly what it denotes, however it is spelled. */
  ghost predicate ReadsAs(texts: seq<string>, a: set<nat>) {
    AllRead(texts, AddressOf) && Image(texts, AddressOf) == a
  }

  lemma PrintsReadsAs(texts: seq<string>, a: set<nat>)
    requires Prints(IntToIp, texts, a)
    ensures ReadsAs(texts, a)
  {
    forall i | 0 <= i < |texts| ensures AddressOf(texts[i]).Some? && AddressOf(texts[i]).value in a {
      assert PrintOf(IntToIp, texts[i], a);
      var n :| n in a && IntToIp(n) == texts[i];
      PrintedAddressReadsBack(n);
    }
    forall n | n in a ensures n in Image(texts, AddressOf) {
      var i :| 0 <= i < |texts| && texts[i] == IntToIp(n);
      PrintedAddressReadsBack(n);
    }
  }

  lemma PointReadsAs(ip: string)
    requires AddressOf(ip).Some?
    ensures ReadsAs([ip], {AddressOf(ip).value})
  {
    var texts := [ip];
    assert texts[0] == ip;
  }

  lemma TargetReadsAs(raw: string, other: Numbers)
    ensures ReadsAs(Added(ParseTarget(raw, other)), Denoted(raw, other))
  {
    if ParseTarget(raw, other).Block? {
      BlockAdds(raw, other);
      PrintsReadsAs(Added(ParseTarget(raw, other)), Denoted(raw, other));
    } else {
      PointDenotes(raw, other);
      if ParseTarget(raw, other).Single? {
        SingleAdds(raw, other);
        PointReadsAs(Trim(raw));
      }
    }
  }

  /** The list reads as exactly the denoted addresses, for all targets and all spellings. */
  lemma UnionReadsAs(targets: seq<string>, other: Numbers)
    ensures ReadsAs(Union(targets, other), AddressSet(targets, other))
  {
    UnionIsExact(targets, other);
    var (texts, adds, sets) := (Union(targets, other), Adds(targets, other), AllDenoted(targets, other));
    forall k | 0 <= k < |targets| ensures ReadsAs(adds[k], sets[k]) {
      TargetReadsAs(targets[k], other);
    }
    UnionOfReads(texts, adds, sets);
    SetsAreBounded(targets, other);
  }

  lemma SetsAreBounded(targets: seq<string>, other: Numbers)
    ensures forall n: nat :: n in AddressSet(targets, other) <==> InSome(AllDenoted(targets, other), n)
  {
    var sets := AllDenoted(targets, other);
    forall n: nat | InSome(sets, n) ensures n < SPACE {
      var k :| 0 <= k < |sets| && n in sets[k];
      assert sets[k] == Denoted(targets[k], other);
    }
  }

  lemma UnionOfReads(texts: seq<string>, adds: seq<seq<string>>, sets: seq<set<nat>>)
    requires forall ip :: ip in texts <==> AddedBy(adds, ip)
    requires |adds| == |sets| && forall k :: 0 <= k < |adds| ==> ReadsAs(adds[k], sets[k])
    ensures AllRead(texts, AddressOf)
    ensures forall n: nat :: n in Image(texts, AddressOf) <==> InSome(sets, n)
  {
    forall i | 0 <= i < |texts| ensures AddressOf(texts[i]).Some? && InSome(sets, AddressOf(texts[i]).value) {
      assert texts[i] in texts;
      var k :| 0 <= k < |adds| && texts[i] in adds[k];
      var j :| 0 <= j < |adds[k]| && adds[k][j] == texts[i];
      assert AddressOf(adds[k][j]).value in Image(adds[k], AddressOf);
    }
    forall n: nat | InSome(sets, n) ensures n in Image(texts, AddressOf) {
      var k :| 0 <= k < |sets| && n in sets[k];
      assert n in Image(adds[k], AddressOf);
      var j :| 0 <= j < |adds[k]| && AddressOf(adds[k][j]).Some? && AddressOf(adds[k][j]).value == n;
      assert AddedBy(adds, adds[k][j]);
      var i :| 0 <= i < |texts| && texts[i] == adds[k][j];
    }
  }

  /** The cap counts texts. That is never less than the number of addresses, and it is the number of addresses
      if and only if no two different texts of the list read as one address: for all targets, however
      spelled. */
  lemma CountsAddressesIff(targets: seq<string>, other: Numbers)
    ensures |AddressSet(targets, other)| <= |Union(targets, other)|
    ensures |Union(targets, other)| == |AddressSet(targets, other)| <==> ReadApart(Union(targets, other))
  {
    UnionReadsAs(targets, other);
    ImageSize(Union(targets, other), AddressOf);
  }

  /** The list is the printed union of addresses and blocks if and only if every target is canonical. */
  lemma ListsThePrintedUnionIff(targets: seq<string>, other: Numbers)
    ensures Prints(IntToIp, Union(targets, other), AddressSet(targets, other))
       <==> forall k :: 0 <= k < |targets| ==> Canonical(targets[k])
  {
    if forall k :: 0 <= k < |targets| ==> Canonical(targets[k]) {
      ListsTheUnion(targets, other);
    }
    if Prints(IntToIp, Union(targets, other), AddressSet(targets, other)) {
      forall k | 0 <= k < |targets| ensures Canonical(targets[k]) {
        PrintedIsCanonical(targets, k, other);
      }
    }
  }

  lemma PrintedIsCanonical(targets: seq<string>, k: nat, other: Numbers)
    requires k < |targets| && Prints(IntToIp, Union(targets, other), AddressSet(targets, other))
    ensures Canonical(targets[k])
  {
    var t := Trim(targets[k]);
    if IndexOf(t, '/') < 0 && AddressOf(t).Some? {
      EmptyIsNoAddress();
      assert ParseTarget(targets[k], other) == Single(t);
      SingleAdds(targets[k], other);
      UnionIsExact(targets, other);
      assert t in Adds(targets, other)[k];
      assert PrintOf(IntToIp, t, AddressSet(targets, other));
      var n :| n in AddressSet(targets, other) && IntToIp(n) == t;
      PrintedAddressReadsBack(n);
    }
  }

  /** Whenever the texts of the list read apart, the expansion succeeds exactly when every target reads, no
      block alone exceeds the cap, and the union of the denoted addresses has at most `cap` members. */
  lemma SucceedsByAddresses(targets: seq<string>, cap: nat, other: Numbers)
    requires ReadApart(Union(targets, other))
    ensures NoRefusal(targets, |targets|, cap, other)
       <==> AllAcceptable(targets, cap, other) && |AddressSet(targets, other)| <= cap
  {
    SucceedsIff(targets, cap, other);
    CountsAddressesIff(targets, other);
  }

  /** Canonical targets read apart. */
  lemma CanonicalSucceedsIff(targets: seq<string>, cap: nat, other: Numbers)
    requires forall k :: 0 <= k < |targets| ==> Canonical(targets[k])
    ensures |Union(targets, other)| == |AddressSet(targets, other)|
    ensures NoRefusal(targets, |targets|, cap, other)
       <==> AllAcceptable(targets, cap, other) && |AddressSet(targets, other)| <= cap
  {
    UnionIsExact(targets, other);
    ListsTheUnion(targets, other);
    PrintedReadsApart(Union(targets, other), AddressSet(targets, other));
    SucceedsByAddresses(targets, cap, other);
    CountsAddressesIff(targets, other);
  }

  lemma PrintedReadsApart(texts: seq<string>, a: set<nat>)
    requires NoRepeats(texts) && Prints(IntToIp, texts, a)
    ensures ReadApart(texts)
  {
    forall i, j | 0 <= i < j < |texts| ensures AddressOf(texts[i]) != AddressOf(texts[j]) {
      assert PrintOf(IntToIp, texts[i], a) && PrintOf(IntToIp, texts[j], a);
      var m :| m in a && IntToIp(m) == texts[i];
      var n :| n in a && IntToIp(n) == texts[j];
      PrintedAddressReadsBack(m);
      PrintedAddressReadsBack(n);
    }
  }

  /** Without that condition the list counts texts and not addresses: two spellings of one address are
      listed, and counted against the cap, as two. */
  lemma TwoSpellingsAreListedTwice(a: string, b: string, other: Numbers)
    requires ParseTarget(a, other).Single? && ParseTarget(b, other).Single? && Trim(a) != Trim(b)
    requires AddressOf(Trim(a)) == AddressOf(Trim(b))
    ensures Union([a, b], other) == [Trim(a), Trim(b)]
    ensures |AddressSet([a, b], other)| == 1
  {
    PointDenotes(a, other);
    PointDenotes(b, other);
    UnionIsOfAdds([a, b], other);
    SingleAdds(a, other);
    SingleAdds(b, other);
    TwoMembers(Adds([a, b], other), [Trim(a)], [Trim(b)]);
    TwoTexts(Trim(a), Trim(b));
    var n := AddressOf(Trim(a)).value;
    TwoMembers(AllDenoted([a, b], other), {n}, {n});
    TwoDenoted(n);
  }

  /** Such a pair: `1.1.1.1`, and the same with a leading zero. */
  lemma OneAddressTwoTexts(other: Numbers)
    ensures Union(["1.1.1.1", "01.1.1.1"], other) == ["1.1.1.1", "01.1.1.1"]
    ensures |AddressSet(["1.1.1.1", "01.1.1.1"], other)| == 1
  {
    hide *;
    OnesRead("1");
    OnesRead("01");
    TextReads("1", other);
    TextReads("01", other);
    assert "1" + ".1.1.1" == "1.1.1.1" && "01" + ".1.1.1" == "01.1.1.1";
    TwoSpellingsAreListedTwice("1.1.1.1", "01.1.1.1", other);
  }

  function Joined(first: string): string { first + ".1.1.1" }

  lemma OnesRead(first: string)
    requires first == "1" || first == "01"
    ensures AddressOf(Joined(first)) == Some(0x101_0101)
  {
    var parts := [first, "1", "1", "1"];
    OneReads();
    hide SplitOn, Join, Joined, AllDigits, Value;
    OnesJoin(first);
    assert forall p :: p in parts ==> p == first || p == "1";
    SplitInvertsJoin(parts, '.');
  }

  lemma OneReads()
    ensures AllDigits("1") && AllDigits("01") && Value("1") == 1 && Value("01") == 1
    ensures '.' !in "1" && '.' !in "01"
  {
    assert "1"[..0] == "" && "01"[..1] == "0" && "0"[..0] == "";
  }

  lemma OnesJoin(first: string)
    ensures Join([first, "1", "1", "1"], '.') == Joined(first)
  {
    assert [first, "1", "1", "1"][1..] == ["1", "1", "1"];
    assert ["1", "1", "1"][1..] == ["1", "1"] && ["1", "1"][1..] == ["1"];
    assert Join(["1"], '.') == "1" && Join(["1", "1"], '.') == "1.1" && Join(["1", "1", "1"], '.') == "1.1.1";
    assert first + ['.'] + "1.1.1" == Joined(first);
  }

  lemma TextReads(first: string, other: Numbers)
    requires first == "1" || first == "01"
    ensures Joined(first) == first + ".1.1.1" && Trim(Joined(first)) == Joined(first)
    ensures ParseTarget(Joined(first), other) == Single(Joined(first))
  {
    OnesRead(first);
    JoinedEnds(first);
    hide AddressOf, Joined, IsSpace, Trim;
    TrimmedIsFixed(Joined(first));
  }

  lemma JoinedEnds(first: string)
    requires first == "1" || first == "01"
    ensures var t := Joined(first);
            '/' !in t && t == first + ".1.1.1" && t != "" && Trimmed(t)
  {
    assert '/' !in first && '/' !in ".1.1.1";
    var t := Joined(first);
    assert t[0] == first[0] && t[|t| - 1] == '1';
  }

  lemma SingleAdds(raw: string, other: Numbers)
    requires ParseTarget(raw, other).Single?
    ensures Added(ParseTarget(raw, other)) == [Trim(raw)]
  {
  }

  lemma TwoMembers<T>(s: seq<T>, x: T, y: T)
    requires |s| == 2 && s[0] == x && s[1] == y
    ensures s == [x, y]
  {
  }

  lemma TwoDenoted(n: nat)
    requires n < SPACE
    ensures |AddressesOf([{n}, {n}])| == 1
  {
    assert n in [{n}, {n}][0];
    assert AddressesOf([{n}, {n}]) == {n};
  }

  lemma UnionOfSnoc(adds: seq<seq<string>>, more: seq<string>)
    ensures UnionOf(adds + [more]) == AddAll(UnionOf(adds), more)
  {
    assert (adds + [more])[..|adds|] == adds;
  }

  lemma TwoTexts(a: string, b: string)
    requires a != b
    ensures UnionOf([[a], [b]]) == [a, b]
  {
    UnionOfSnoc([], [a]);
    UnionOfSnoc([[a]], [b]);
    assert [[a]] + [[b]] == [[a], [b]] && [] + [[a]] == [[a]];
    AddOne([], a);
    AddOne([a], b);
  }
}
