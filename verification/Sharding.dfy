/** Which shard a payload goes to, and how much the shards hold together. */
module Sharding {
  import opened Values

  /** A resource attribute; the value is absent when it is not a string. */
  datatype Attribute = Attribute(key: string, value: Option<Bytes>)

  /** What routing reads from a payload: nothing when it has no resource spans or no resource. */
  datatype Resource = NoResource | Resource(attributes: seq<Attribute>)

  predicate NamesService(a: Attribute) {
    a.key == "service.name" && a.value.Some? && a.value.value != []
  }

  /** The first non-empty service name, empty when there is none. */
  function ServiceName(attributes: seq<Attribute>): Bytes {
    if attributes == [] then []
    else if NamesService(attributes[0]) then attributes[0].value.value
    else ServiceName(attributes[1..])
  }

  method ExtractServiceName(attributes: seq<Attribute>) returns (name: Bytes)
    ensures name == ServiceName(attributes)
    ensures name == [] <==> forall a | a in attributes :: !NamesService(a)
    ensures name != [] ==>
              exists i :: 0 <= i < |attributes| && attributes[i] == Attribute("service.name", Some(name))
                && forall j | 0 <= j < i && attributes[j].key == "service.name" && attributes[j].value.Some? ::
                     attributes[j].value.value == []
    ensures name == [] ==>
              forall a | a in attributes && a.key == "service.name" && a.value.Some? :: a.value.value == []
  {
    for i := 0 to |attributes|
      invariant ServiceName(attributes) == ServiceName(attributes[i..])
      invariant forall a | a in attributes[..i] :: !NamesService(a)
      invariant forall j | 0 <= j < i :: !NamesService(attributes[j])
    {
      assert attributes[..i + 1] == attributes[..i] + [attributes[i]];
      assert attributes[i..][1..] == attributes[i + 1..];
      if NamesService(attributes[i]) {
        assert attributes[i] in attributes;
        return attributes[i].value.value;
      }
    }
    assert attributes[..|attributes|] == attributes;
    name := [];
  }

  /** 32-bit FNV-1a. */
  function Fnv32(h: bv32, key: Bytes): bv32
    decreases |key|
  {
    if key == [] then h else Fnv32(Fnv32Step(h, key[0]), key[1..])
  }

  function Fnv32Step(h: bv32, b: bv8): bv32 {
    (h ^ (b as bv32)) * 16777619
  }

  /** int is 64 bits wide, so the unsigned hash converts without a sign. */
  function HashToShard(key: Bytes, shards: int): (shard: int)
    ensures shards >= 1 ==> 0 <= shard < shards
  {
    if key == [] || shards <= 1 then 0 else (Fnv32(2166136261, key) as int) % shards
  }

  /** The published 32-bit FNV-1a values of three test strings, which are also their shards when
      there are 2^32 of them. */
  lemma PublishedHashes()
    ensures HashToShard([0x61], 0x1_0000_0000) == 0xe40c292c
    ensures HashToShard([0x66, 0x6f], 0x1_0000_0000) == 0x6222e842
    ensures HashToShard([0x66, 0x6f, 0x6f, 0x62, 0x61, 0x72], 0x1_0000_0000) == 0xbf9cf968
  {
    Fnv32First(2166136261, 0x61, [], 0xe40c292c);
    Fnv32First(2166136261, 0x66, [0x6f], 0xe30c2799);
    Fnv32First(0xe30c2799, 0x6f, [], 0x6222e842);
    Fnv32First(2166136261, 0x66, [0x6f, 0x6f, 0x62, 0x61, 0x72], 0xe30c2799);
    Fnv32First(0xe30c2799, 0x6f, [0x6f, 0x62, 0x61, 0x72], 0x6222e842);
    Fnv32First(0x6222e842, 0x6f, [0x62, 0x61, 0x72], 0xa9f37ed7);
    Fnv32First(0xa9f37ed7, 0x62, [0x61, 0x72], 0x3f5076ef);
    Fnv32First(0x3f5076ef, 0x61, [0x72], 0x39aaa18a);
    Fnv32First(0x39aaa18a, 0x72, [], 0xbf9cf968);
  }

  lemma Fnv32First(h: bv32, b: bv8, rest: Bytes, next: bv32)
    requires Fnv32Step(h, b) == next
    ensures Fnv32(h, [b] + rest) == Fnv32(next, rest)
  {
    hide Fnv32Step;
    assert ([b] + rest)[1..] == rest;
  }

  function ShardIndex(resource: Resource, shards: int): (shard: int)
    requires shards >= 1
    ensures 0 <= shard < shards
  {
    if shards <= 1 || resource.NoResource? then 0 else HashToShard(ServiceName(resource.attributes), shards)
  }

  /** All payloads of one service meet in one shard, whatever else their attributes say. */
  lemma OneServiceOneShard(a: seq<Attribute>, b: seq<Attribute>, shards: int)
    requires shards >= 1 && ServiceName(a) == ServiceName(b)
    ensures ShardIndex(Resource(a), shards) == ShardIndex(Resource(b), shards)
  {
  }

  // ----- capacities -----

  function AtLeastOne(n: int): int { if n < 1 then 1 else n }

  /** Integer division as the program rounds it, toward zero. */
  function Quotient(a: int, b: int): int
    requires b >= 1
  {
    if a >= 0 then a / b else -((-a) / b)
  }

  function Shards(configured: int): int { AtLeastOne(configured) }

  function ShardCapacity(queueSize: int, shards: int): int
    requires shards >= 1
  {
    AtLeastOne(Quotient(queueSize, shards))
  }

  /** Together the shards hold at most the configured queue size, or one payload each. */
  lemma TotalCapacity(queueSize: int, shards: int)
    requires shards >= 1
    ensures shards * ShardCapacity(queueSize, shards) <= if queueSize >= shards then queueSize else shards
    ensures ShardCapacity(queueSize, shards) >= 1 && shards * (ShardCapacity(queueSize, shards) + 1) > queueSize
  {
    if queueSize >= shards {
      QuotientBounds(queueSize, shards);
      QuotientPositive(queueSize, shards);
    } else if queueSize >= 0 {
      SmallQuotient(queueSize, shards);
    } else {
      NonnegativeQuotient(-queueSize, shards);
    }
  }

  lemma QuotientPositive(a: int, b: int)
    requires a >= b >= 1
    ensures a / b >= 1
  {
  }

  lemma SmallQuotient(a: int, b: int)
    requires 0 <= a < b
    ensures a / b == 0
  {
  }

  lemma NonnegativeQuotient(a: int, b: int)
    requires a >= 0 && b >= 1
    ensures a / b >= 0
  {
  }

  lemma QuotientBounds(a: int, b: int)
    requires a >= 0 && b >= 1
    ensures b * (a / b) <= a
  {
  }
}
