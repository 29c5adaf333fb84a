// Relabelling rules and the sharding of store gateways by block id
// (internal/pkg/manifests/options.go, internal/controller/thanosstore_controller.go).

module Relabelling {
  datatype RelabelConfig = RelabelConfig(
    action: string,
    sourceLabel: string,
    targetLabel: string,
    modulus: int,
    regex: string)

  // ---------------------------------------------------------------- decimal rendering

  const DIGITS := "0123456789"

  /** `fmt.Sprintf("%d", n)`. */
  function Decimal(n: nat): string {
    if n < 10 then [DIGITS[n]] else Decimal(n / 10) + [DIGITS[n % 10]]
  }

  function DigitValue(c: char): nat {
    if '0' <= c <= '9' then (c - '0') as nat else 0
  }

  function ParseDecimal(s: string): nat {
    if s == "" then 0 else 10 * ParseDecimal(s[..|s| - 1]) + DigitValue(s[|s| - 1])
  }

  lemma DigitRoundTrip(d: nat)
    requires d < 10
    ensures DigitValue(DIGITS[d]) == d
  {
    assert DIGITS[d] == '0' + d as char;
  }

  lemma {:induction false} DecimalRoundTrip(n: nat)
    ensures ParseDecimal(Decimal(n)) == n
  {
    DigitRoundTrip(n % 10);
    if n < 10 {
      assert [DIGITS[n]][..0] == "";
      assert ParseDecimal("") == 0;
    } else {
      DecimalRoundTrip(n / 10);
      var s := Decimal(n);
      assert s[..|s| - 1] == Decimal(n / 10) && s[|s| - 1] == DIGITS[n % 10];
    }
  }

  /** Different numbers are rendered differently. */
  lemma DecimalInjective(m: nat, n: nat)
    requires Decimal(m) == Decimal(n)
    ensures m == n
  {
    DecimalRoundTrip(m);
    DecimalRoundTrip(n);
  }

  // ---------------------------------------------------------------- what Thanos does with the rules

  type Labels = map<string, string>

  function LabelValue(labels: Labels, name: string): string {
    if name in labels then labels[name] else ""
  }

  /** How Thanos reads rules: `hash` is the hash behind `hashmod`, and `matches(regex, value)` tells whether an
      anchored regular expression matches a value. */
  datatype Relabeller = Relabeller(hash: string -> nat, matches: (string, string) -> bool)

  /** A regular expression of plain digits matches just itself. */
  ghost predicate MatchesDigits(r: Relabeller) {
    forall n: nat, value :: r.matches(Decimal(n), value) <==> value == Decimal(n)
  }

  /** One rule applied to the labels of a block; without a result the block is dropped. */
  function Relabel(r: Relabeller, rule: RelabelConfig, labels: Labels): (kept: seq<Labels>)
    ensures |kept| <= 1
  {
    if rule.action == "hashmod" && rule.modulus > 0 then
      [labels[rule.targetLabel := Decimal(r.hash(LabelValue(labels, rule.sourceLabel)) % rule.modulus)]]
    else if rule.action == "keep" && !r.matches(rule.regex, LabelValue(labels, rule.sourceLabel)) then []
    else [labels]
  }

  /** The rules in order. */
  predicate Keeps(r: Relabeller, rules: seq<RelabelConfig>, labels: Labels)
    decreases |rules|
  {
    rules == [] ||
    var kept := Relabel(r, rules[0], labels);
    kept != [] && Keeps(r, rules[1..], kept[0])
  }
}

module StoreSharding {
  import opened Relabelling

  /** What distinguishes one store from the next: its index and its rules. */
  datatype StoreOptions = StoreOptions(shardIndex: int, relabelConfigs: seq<RelabelConfig>)

  const NO_INDEX := -1

  function ShardRules(shardCount: int, i: nat): seq<RelabelConfig> {
    [RelabelConfig("hashmod", "__block_id", "shard", shardCount, ""),
     RelabelConfig("keep", "shard", "", 0, Decimal(i))]
  }

  /** `stores` is what the operator builds for this number of shards. */
  ghost predicate IsSharding(shards: nat, stores: seq<StoreOptions>) {
    if shards <= 1 then stores == [StoreOptions(NO_INDEX, [])]
    else |stores| == shards && forall i | 0 <= i < shards :: stores[i] == StoreOptions(i, ShardRules(shards, i))
  }

  /** One store for no or one shard, otherwise one per shard. The API admits at least one shard. */
  method SpecToOptions(shards: nat) returns (buildables: array<StoreOptions>)
    ensures IsSharding(shards, buildables[..])
  {
    if shards == 0 || shards == 1 {
      buildables := new StoreOptions[1](_ => StoreOptions(NO_INDEX, []));
      return;
    }
    var shardCount := shards;
    buildables := new StoreOptions[shardCount](_ => StoreOptions(NO_INDEX, []));
    for i := 0 to shards
      invariant forall j | 0 <= j < i :: buildables[j] == StoreOptions(j, ShardRules(shards, j))
    {
      var hashmod := RelabelConfig("hashmod", "__block_id", "shard", shardCount, "");
      var keep := RelabelConfig("keep", "shard", "", 0, Decimal(i));
      buildables[i] := StoreOptions(i, [hashmod, keep]);
    }
  }

  lemma ShardKeeps(r: Relabeller, shards: nat, i: nat, labels: Labels)
    requires MatchesDigits(r) && shards > 1 && i < shards
    ensures Keeps(r, ShardRules(shards, i), labels) <==> r.hash(LabelValue(labels, "__block_id")) % shards == i
  {
    var rules := ShardRules(shards, i);
    var shard := Decimal(r.hash(LabelValue(labels, "__block_id")) % shards);
    var tagged := labels["shard" := shard];
    assert Relabel(r, rules[0], labels) == [tagged];
    assert rules[1..] == [rules[1]] && rules[1..][1..] == [];
    assert Keeps(r, [], tagged);
    assert Keeps(r, rules[1..], tagged) <==> r.matches(Decimal(i), shard);
    if shard == Decimal(i) {
      DecimalInjective(r.hash(LabelValue(labels, "__block_id")) % shards, i);
    }
  }

  /** Sharding is a partition by block id: whatever the hash function, exactly one store keeps a block, the one
      that the hash of its id selects. */
  lemma ShardingPartitions(r: Relabeller, shards: nat, stores: seq<StoreOptions>, labels: Labels)
    returns (owner: nat)
    requires MatchesDigits(r) && IsSharding(shards, stores)
    ensures owner < |stores|
    ensures forall i | 0 <= i < |stores| :: Keeps(r, stores[i].relabelConfigs, labels) <==> i == owner
    ensures shards > 1 && "__block_id" in labels ==> owner == r.hash(labels["__block_id"]) % shards
  {
    if shards <= 1 {
      owner := 0;
    } else {
      owner := r.hash(LabelValue(labels, "__block_id")) % shards;
      forall i | 0 <= i < |stores| ensures Keeps(r, stores[i].relabelConfigs, labels) <==> i == owner {
        ShardKeeps(r, shards, i, labels);
      }
    }
  }
}
