/**
 * The key handling of the Redis helpers (`redis/redis.go`): every key is
 * stored under the configured prefix, separated by a colon. The client is
 * abstract: a call is recorded as the command it sends, with the key it
 * sends it for.
 */
module Redis {
  import opened Wrappers

  /** `buildKey`: the prefix, a colon, then the key. */
  function BuildKey(prefix: string, key: string): (r: string)
    ensures |r| == |prefix| + 1 + |key|
    ensures r[..|prefix|] == prefix && r[|prefix|] == ':' && r[|prefix| + 1..] == key
  {
    prefix + ":" + key
  }

  /** The inverse of `BuildKey`: the key stored under `prefix`, if `stored` is one. */
  function StripPrefix(prefix: string, stored: string): Option<string>
  {
    if |stored| > |prefix| && stored[..|prefix|] == prefix && stored[|prefix|] == ':'
    then Some(stored[|prefix| + 1..])
    else None
  }

  lemma StripBuild(prefix: string, key: string)
    ensures StripPrefix(prefix, BuildKey(prefix, key)) == Some(key)
  {
  }

  lemma BuildStrip(prefix: string, stored: string)
    requires StripPrefix(prefix, stored).Some?
    ensures BuildKey(prefix, StripPrefix(prefix, stored).value) == stored
  {
    var key := StripPrefix(prefix, stored).value;
    assert stored == stored[..|prefix|] + [stored[|prefix|]] + stored[|prefix| + 1..];
  }

  /** Under one prefix, distinct keys give distinct stored keys. */
  lemma BuildKeyInjective(prefix: string, a: string, b: string)
    requires BuildKey(prefix, a) == BuildKey(prefix, b)
    ensures a == b
  {
    StripBuild(prefix, a);
    StripBuild(prefix, b);
  }

  /** Under different prefixes two keys can collide: "a" with ":b" and "a:" with "b". */
  lemma PrefixesCanCollide(p: string, k: string)
    ensures BuildKey(p, ":" + k) == BuildKey(p + ":", k)
  {
  }

  /** Every key of `keys` rewritten by `BuildKey`, in the same order. */
  function BuildKeys(prefix: string, keys: seq<string>): (r: seq<string>)
    ensures |r| == |keys|
    ensures forall i :: 0 <= i < |keys| ==> r[i] == BuildKey(prefix, keys[i])
  {
    if keys == [] then []
    else BuildKeys(prefix, keys[..|keys| - 1]) + [BuildKey(prefix, keys[|keys| - 1])]
  }

  /** A command as the client sends it. */
  datatype Command =
    | GetCmd(key: string)
    | IncrCmd(key: string)
    | SetCmd(key: string, value: string, expiration: int)
    | DelCmd(keys: seq<string>)

  /** The package-level client together with the prefix from the Redis settings. */
  class Client {
    const prefix: string
    /** The commands sent so far, oldest first. */
    var sent: seq<Command>

    constructor (prefix: string)
      ensures this.prefix == prefix && sent == []
    {
      this.prefix := prefix;
      sent := [];
    }

    method Get(key: string)
      modifies this`sent
      ensures sent == old(sent) + [GetCmd(BuildKey(prefix, key))]
    {
      sent := sent + [GetCmd(BuildKey(prefix, key))];
    }

    method Incr(key: string)
      modifies this`sent
      ensures sent == old(sent) + [IncrCmd(BuildKey(prefix, key))]
    {
      sent := sent + [IncrCmd(BuildKey(prefix, key))];
    }

    method Set(key: string, value: string, expiration: int)
      modifies this`sent
      ensures sent == old(sent) + [SetCmd(BuildKey(prefix, key), value, expiration)]
    {
      sent := sent + [SetCmd(BuildKey(prefix, key), value, expiration)];
    }

    /**
     * `Del(key...)`: the caller's slice is rewritten in place, element by
     * element, to the stored keys, and then sent.
     */
    method Del(keys: array<string>)
      modifies this`sent, keys
      ensures keys[..] == BuildKeys(prefix, old(keys[..]))
      ensures sent == old(sent) + [DelCmd(keys[..])]
    {
      var i := 0;
      while i < keys.Length
        invariant 0 <= i <= keys.Length
        invariant forall j :: 0 <= j < i ==> keys[j] == BuildKey(prefix, old(keys[j]))
        invariant forall j :: i <= j < keys.Length ==> keys[j] == old(keys[j])
        invariant sent == old(sent)
      {
        keys[i] := BuildKey(prefix, keys[i]);
        i := i + 1;
      }
      ghost var expected := BuildKeys(prefix, old(keys[..]));
      assert forall j :: 0 <= j < keys.Length ==> keys[..][j] == expected[j];
      sent := sent + [DelCmd(keys[..])];
    }
  }
}
