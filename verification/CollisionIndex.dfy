/** The RemoteCollisionIndex of bridge/remote_actor_registry.cpp: first as one thread runs it, then
    as a state machine in which a writer and a reader interleave word by word. */
module CollisionIndex {
  import opened Serial
  import opened ActorRegistry

  const WORDS := 7
  const ATTEMPTS := 3

  /** The words one publication stores. */
  function Words(bindings: seq<Binding>): (w: seq<u32>)
    ensures |w| == WORDS
  {
    seq(WORDS, i requires 0 <= i < WORDS => if i < |bindings| then bindings[i].movingItem else 0)
  }

  predicate Hits(word: u32, current: u32, other: u32) { word != 0 && (word == current || word == other) }

  /** The membership answer on one table. */
  predicate Touches(words: seq<u32>, current: u32, other: u32) {
    exists w :: w in words && Hits(w, current, other)
  }

  lemma TouchesPrefixStep(words: seq<u32>, i: nat, current: u32, other: u32)
    requires i < |words|
    ensures Touches(words[..i + 1], current, other)
            <==> Touches(words[..i], current, other) || Hits(words[i], current, other)
  {
    assert words[..i + 1] == words[..i] + [words[i]];
  }

  class RemoteCollisionIndex {
    var sequence: u32
    const words: array<u32>

    ghost predicate Valid()
      reads this
    {
      words.Length == WORDS && sequence % 2 == 0
    }

    constructor ()
      ensures Valid() && words[..] == Words([]) && fresh(words)
    {
      sequence := 0;
      words := new u32[WORDS](_ => 0);
    }

    method Publish(bindings: seq<Binding>)
      requires Valid()
      modifies this, words
      ensures Valid() && words[..] == Words(bindings) && sequence == (old(sequence) + 2) % MODULUS
    {
      sequence := (sequence + 1) % MODULUS;
      var count := if |bindings| < words.Length then |bindings| else words.Length;
      for index := 0 to words.Length
        invariant sequence == (old(sequence) + 1) % MODULUS
        invariant words[..index] == Words(bindings)[..index]
      {
        words[index] := if index < count then bindings[index].movingItem else 0;
      }
      sequence := (sequence + 1) % MODULUS;
    }

    method Clear()
      requires Valid()
      modifies this, words
      ensures Valid() && words[..] == Words([])
    {
      Publish([]);
    }

    /** While a publication is under way every attempt is spent and the answer is `false`. */
    method PairTouchesRemote(current: u32, other: u32) returns (matched: bool)
      requires words.Length == WORDS
      ensures matched <==> sequence % 2 == 0 && Touches(words[..], current, other)
    {
      if current == 0 && other == 0 {
        return false;
      }
      for attempt := 0 to ATTEMPTS
        invariant attempt > 0 ==> sequence % 2 != 0
      {
        var before := sequence;
        if before % 2 == 0 {
          matched := false;
          for index := 0 to words.Length
            invariant matched <==> Touches(words[..index], current, other)
          {
            TouchesPrefixStep(words[..], index, current, other);
            assert words[..][..index] == words[..index] && words[..][..index + 1] == words[..index + 1];
            matched := matched || Hits(words[index], current, other);
          }
          assert words[..words.Length] == words[..];
          var after := sequence;
          if before == after && after % 2 == 0 {
            return;
          }
        }
      }
      matched := false;
    }

    method Contains(movingItem: u32) returns (found: bool)
      requires words.Length == WORDS
      ensures found <==> sequence % 2 == 0 && movingItem != 0 && movingItem in words[..]
    {
      found := PairTouchesRemote(movingItem, 0);
    }
  }
}
