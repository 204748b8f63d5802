/** Every interleaving of the collision index's publisher with a collision hook, one atomic access
    per step, sequentially consistent. */
module CollisionSeqlock {
  import opened Serial
  import opened CollisionIndex

  type Table = t: seq<u32> | |t| == WORDS witness seq(WORDS, _ => 0)

  datatype Writer = Resting | Storing(table: Table, next: nat)

  /** `seen` is the unwrapped value of the sequence word at the attempt's first load. */
  datatype Reader =
    | Waiting
    | Loading(current: u32, other: u32, attempt: nat)
    | Scanning(current: u32, other: u32, attempt: nat, before: u32, seen: nat, index: nat, matched: bool)
    | Answered(current: u32, other: u32, answer: bool, stable: bool, seen: nat)

  /** `version` counts the writer's increments; the sequence word is `version` modulo 2^32.
      `published` lists the completed publications, starting with the initial zero table. */
  datatype State = State(version: nat, words: Table, writer: Writer, published: seq<Table>, reader: Reader)

  datatype Step = Publish(table: Table) | Store | Finish | Ask(current: u32, other: u32) | Read

  function Init(): State {
    var zero := seq(WORDS, _ => 0);
    State(0, zero, Resting, [zero], Waiting)
  }

  function Wire(version: nat): u32 { version % MODULUS }

  function Retry(current: u32, other: u32, attempt: nat, seen: nat): Reader {
    if attempt + 1 < ATTEMPTS then Loading(current, other, attempt + 1)
    else Answered(current, other, false, false, seen)
  }

  /** One access of the reader. */
  function ReadStep(s: State): Reader {
    match s.reader
    case Loading(current, other, attempt) =>
      if Wire(s.version) % 2 != 0 then Retry(current, other, attempt, s.version)
      else Scanning(current, other, attempt, Wire(s.version), s.version, 0, false)
    case Scanning(current, other, attempt, before, seen, index, matched) =>
      if index < WORDS then s.reader.(index := index + 1, matched := matched || Hits(s.words[index], current, other))
      else if before == Wire(s.version) && Wire(s.version) % 2 == 0 then Answered(current, other, matched, true, seen)
      else Retry(current, other, attempt, seen)
    case _ => s.reader
  }

  /** A step that is not enabled leaves the state as it is. */
  function Next(s: State, step: Step): State {
    match step
    case Publish(table) =>
      if s.writer.Resting? then s.(version := s.version + 1, writer := Storing(table, 0)) else s
    case Store =>
      if s.writer.Storing? && s.writer.next < WORDS then
        s.(words := s.words[s.writer.next := s.writer.table[s.writer.next]],
           writer := s.writer.(next := s.writer.next + 1))
      else s
    case Finish =>
      if s.writer.Storing? && s.writer.next == WORDS then
        s.(version := s.version + 1, writer := Resting, published := s.published + [s.writer.table])
      else s
    case Ask(current, other) =>
      if s.reader.Waiting? || s.reader.Answered? then
        s.(reader := if current == 0 && other == 0 then Answered(0, 0, false, false, s.version)
           else Loading(current, other, 0))
      else s
    case Read => s.(reader := ReadStep(s))
  }

  function From(s: State, steps: seq<Step>): State {
    if steps == [] then s else Next(From(s, steps[..|steps| - 1]), steps[|steps| - 1])
  }

  function Run(steps: seq<Step>): State { From(Init(), steps) }

  function Latest(s: State): Table
    requires s.published != []
  {
    s.published[|s.published| - 1]
  }

  /** The writer's half: the words are the latest table, overwritten from the left while storing. */
  predicate WriterInv(s: State) {
    && s.published != []
    && match s.writer
       case Resting => s.version == 2 * (|s.published| - 1) && s.words == Latest(s)
       case Storing(table, next) =>
         && s.version == 2 * (|s.published| - 1) + 1 && next <= WORDS
         && s.words[..next] == table[..next] && s.words[next..] == Latest(s)[next..]
  }

  /** The reader's half: while the version has not moved, what was matched so far is the answer on
      the prefix of the one table that is current. */
  predicate ReaderInv(s: State) {
    match s.reader
    case Scanning(current, other, attempt, before, seen, index, matched) =>
      && before == Wire(seen) && seen % 2 == 0 && seen <= s.version && index <= WORDS && seen / 2 < |s.published|
      && (seen == s.version ==> (matched <==> Touches(s.published[seen / 2][..index], current, other)))
    case Answered(current, other, answer, stable, seen) =>
      && (answer ==> stable)
      && (stable ==> seen / 2 < |s.published| && (answer <==> Touches(s.published[seen / 2], current, other)))
    case _ => true
  }

  /** Fewer than 2^31 publications since the first load of the attempt in progress. */
  predicate InTime(s: State) { s.reader.Scanning? ==> s.version < s.reader.seen + MODULUS }

  lemma WireDistinguishes(seen: nat, version: nat)
    requires seen <= version < seen + MODULUS && Wire(seen) == Wire(version)
    ensures seen == version
  {
  }

  lemma WireParity(version: nat)
    ensures Wire(version) % 2 == version % 2
  {
  }

  lemma WriterStepKeeps(s: State, step: Step)
    requires WriterInv(s)
    ensures WriterInv(Next(s, step))
  {
    var n := Next(s, step);
    if step.Store? && n != s {
      var k := s.writer.next;
      assert n.words[..k + 1] == s.words[..k] + [s.writer.table[k]] == s.writer.table[..k + 1];
      assert n.words[k + 1..] == s.words[k..][1..] == Latest(s)[k..][1..];
    } else if step.Finish? && n != s {
      assert n.words == s.words[..WORDS];
    }
  }

  lemma ReadStepKeeps(s: State)
    requires WriterInv(s) && ReaderInv(s) && InTime(s)
    ensures ReaderInv(s.(reader := ReadStep(s)))
  {
    WireParity(s.version);
    match s.reader
    case Scanning(current, other, attempt, before, seen, index, matched) =>
      if index < WORDS {
        if seen == s.version {
          TouchesPrefixStep(s.words, index, current, other);
        }
      } else if before == Wire(s.version) {
        WireDistinguishes(seen, s.version);
        assert s.published[seen / 2][..WORDS] == s.published[seen / 2];
      }
    case _ =>
  }

  lemma WriterStepKeepsReader(s: State, step: Step)
    requires WriterInv(s) && ReaderInv(s) && step != Read
    ensures ReaderInv(Next(s, step))
  {
  }

  lemma {:induction false} RunKeeps(steps: seq<Step>)
    requires forall n :: 0 <= n < |steps| ==> InTime(Run(steps[..n]))
    ensures WriterInv(Run(steps)) && ReaderInv(Run(steps))
  {
    if steps != [] {
      var prior := steps[..|steps| - 1];
      assert forall n :: 0 <= n < |prior| ==> prior[..n] == steps[..n];
      RunKeeps(prior);
      WriterStepKeeps(Run(prior), steps[|steps| - 1]);
      if steps[|steps| - 1] == Read {
        ReadStepKeeps(Run(prior));
      } else {
        WriterStepKeepsReader(Run(prior), steps[|steps| - 1]);
      }
    }
  }

  /** Seqlock safety and linearization: an answer from the stable path is the membership answer on
      one published table, namely the one that was current at both sequence loads of the attempt;
      in particular `true` is never a mixture of two tables. */
  lemma StableAnswerIsOneTable(steps: seq<Step>)
    requires forall n :: 0 <= n < |steps| ==> InTime(Run(steps[..n]))
    ensures var s := Run(steps);
            s.reader.Answered? ==>
              && (s.reader.answer ==> s.reader.stable)
              && (s.reader.stable ==>
                    var k := s.reader.seen / 2;
                    k < |s.published| && (s.reader.answer
                                          <==> Touches(s.published[k], s.reader.current, s.reader.other)))
  {
    RunKeeps(steps);
  }

  /** The table a stable answer speaks of is still the latest one when the answer is given. */
  lemma StableAnswerIsCurrent(steps: seq<Step>)
    requires steps != [] && steps[|steps| - 1] == Read
    requires forall n :: 0 <= n < |steps| ==> InTime(Run(steps[..n]))
    requires Run(steps[..|steps| - 1]).reader.Scanning? && Run(steps).reader.Answered? && Run(steps).reader.stable
    ensures Run(steps).version == Run(steps).reader.seen && |Run(steps).published| == Run(steps).reader.seen / 2 + 1
  {
    var prior := steps[..|steps| - 1];
    assert forall n :: 0 <= n < |prior| ==> prior[..n] == steps[..n];
    RunKeeps(prior);
    var s := Run(prior);
    assert InTime(s);
    WireDistinguishes(s.reader.seen, s.version);
    WireParity(s.version);
  }

  // ----- an undisturbed read does answer ----------------------------------------------------

  function Reads(s: State, n: nat): State {
    if n == 0 then s else Next(Reads(s, n - 1), Read)
  }

  lemma {:induction false} ScanWithoutWriter(s: State, current: u32, other: u32, n: nat)
    requires WriterInv(s) && s.writer.Resting? && s.reader == Loading(current, other, 0) && n <= WORDS
    ensures Reads(s, n + 1) ==
            s.(reader := Scanning(current, other, 0, Wire(s.version), s.version, n,
                                  Touches(s.words[..n], current, other)))
  {
    WireParity(s.version);
    if n > 0 {
      ScanWithoutWriter(s, current, other, n - 1);
      TouchesPrefixStep(s.words, n - 1, current, other);
    } else {
      assert Reads(s, 0) == s;
    }
  }

  /** A read during which the writer rests takes its first attempt and gives the exact answer. */
  lemma QuietReadIsExact(s: State, current: u32, other: u32)
    requires WriterInv(s) && s.writer.Resting? && s.reader == Loading(current, other, 0)
    ensures Reads(s, WORDS + 2).reader == Answered(current, other, Touches(Latest(s), current, other), true, s.version)
  {
    WireParity(s.version);
    ScanWithoutWriter(s, current, other, WORDS);
    assert s.words[..WORDS] == s.words;
  }

  // ----- the bound on publications is needed ------------------------------------------------

  function Publication(table: Table): seq<Step> {
    [Publish(table), Store, Store, Store, Store, Store, Store, Store, Finish]
  }

  function Publications(table: Table, n: nat): seq<Step> {
    if n == 0 then [] else Publications(table, n - 1) + Publication(table)
  }

  lemma {:induction false} FromConcat(s: State, a: seq<Step>, b: seq<Step>)
    ensures From(s, a + b) == From(From(s, a), b)
  {
    if b == [] {
      assert a + b == a;
    } else {
      assert (a + b)[..|a + b| - 1] == a + b[..|b| - 1];
      FromConcat(s, a, b[..|b| - 1]);
    }
  }

  lemma {:induction false} StoresCopy(s: State, table: Table, n: nat)
    requires s.writer == Storing(table, 0) && n <= WORDS
    ensures var r := From(s, seq(n, _ => Store));
            r.words[..n] == table[..n] && r == s.(words := r.words, writer := Storing(table, n))
  {
    if n > 0 {
      StoresCopy(s, table, n - 1);
      assert seq(n, _ => Store)[..n - 1] == seq(n - 1, _ => Store);
      var r, before := From(s, seq(n, _ => Store)), From(s, seq(n - 1, _ => Store));
      assert r.words[..n] == before.words[..n - 1] + [table[n - 1]];
    }
  }

  lemma PublicationEffect(s: State, table: Table)
    requires s.writer.Resting?
    ensures From(s, Publication(table))
            == s.(version := s.version + 2, words := table, published := s.published + [table])
  {
    var stores := seq(WORDS, _ => Store);
    var p := Publication(table);
    assert p == [Publish(table)] + stores + [Finish];
    FromConcat(s, [Publish(table)] + stores, [Finish]);
    FromConcat(s, [Publish(table)], stores);
    var begun := From(s, [Publish(table)]);
    assert begun == Next(From(s, []), Publish(table));
    StoresCopy(begun, table, WORDS);
    var stored := From(begun, stores);
    assert stored.words == stored.words[..WORDS] == table[..WORDS] == table;
    assert From(stored, [Finish]) == Next(From(stored, []), Finish);
  }

  lemma {:induction false} PublicationsEffect(s: State, table: Table, n: nat)
    requires s.writer.Resting? && n > 0
    ensures From(s, Publications(table, n)) ==
            s.(version := s.version + 2 * n, words := table, published := s.published + seq(n, _ => table))
  {
    var prior := From(s, Publications(table, n - 1));
    if n == 1 {
      assert prior == s;
    } else {
      PublicationsEffect(s, table, n - 1);
    }
    FromConcat(s, Publications(table, n - 1), Publication(table));
    PublicationEffect(prior, table);
    assert s.published + seq(n, _ => table) == (s.published + seq(n - 1, _ => table)) + [table];
  }

  /** One publication of `table`, then a question whose first word has been read. */
  function Asked(table: Table, item: u32): seq<Step> { Publication(table) + [Ask(item, 0), Read, Read] }

  lemma AskedEffect(table: Table, item: u32)
    requires item != 0 && !Hits(table[0], item, 0)
    ensures Run(Asked(table, item)) ==
            State(2, table, Resting, Init().published + [table], Scanning(item, 0, 0, 2, 2, 1, false))
  {
    var s := From(Init(), Publication(table));
    PublicationEffect(Init(), table);
    FromConcat(Init(), Publication(table), [Ask(item, 0), Read, Read]);
    ThreeSteps(s, Ask(item, 0), Read, Read);
  }

  /** With 2^31 publications inside one attempt the sequence word comes round and the check passes
      on a mixture: the answer is `false` although every table current during the read held the
      item. */
  lemma FullWrapBreaksTheCheck(item: u32)
    requires item != 0
    ensures exists steps :: var s := Run(steps);
              s.reader == Answered(item, 0, false, true, 2) && |s.published| > 1
              && forall k :: 1 <= k < |s.published| ==> Touches(s.published[k], item, 0)
  {
    var a: Table := [0, item, 0, 0, 0, 0, 0];
    var b: Table := [item, 0, 0, 0, 0, 0, 0];
    var steps := WrappedRead(a, b, item);
    var s := Run(steps);
    assert a[1] == item && b[0] == item;
    forall k | 1 <= k < |s.published|
      ensures Touches(s.published[k], item, 0)
    {
      assert s.published[k] == if k == 1 then a else b;
      assert item in s.published[k] && Hits(item, item, 0);
    }
  }

  lemma WrappedRead(a: Table, b: Table, item: u32) returns (steps: seq<Step>)
    requires item != 0 && a == [0, item, 0, 0, 0, 0, 0] && b == [item, 0, 0, 0, 0, 0, 0]
    ensures Run(steps).reader == Answered(item, 0, false, true, 2)
    ensures Run(steps).published == Init().published + [a] + seq(HALF, _ => b)
  {
    AskedEffect(a, item);
    var asked := Run(Asked(a, item));
    PublicationsEffect(asked, b, HALF);
    FromConcat(Init(), Asked(a, item), Publications(b, HALF));
    var wrapped := From(asked, Publications(b, HALF));
    assert Wire(wrapped.version) == 2;
    var last := seq(WORDS, _ => Read);
    RestMisses(wrapped, item, WORDS - 1);
    assert last[..WORDS - 1] == seq(WORDS - 1, _ => Read);
    steps := Asked(a, item) + Publications(b, HALF) + last;
    FromConcat(Init(), Asked(a, item) + Publications(b, HALF), last);
  }

  lemma ThreeSteps(s: State, x: Step, y: Step, z: Step)
    ensures From(s, [x, y, z]) == Next(Next(Next(s, x), y), z)
  {
    assert [x, y, z][..2] == [x, y] && [x, y][..1] == [x];
    assert From(s, [x]) == Next(From(s, []), x);
  }

  lemma {:induction false} RestMisses(s: State, item: u32, n: nat)
    requires item != 0 && n < WORDS && s.words == [item, 0, 0, 0, 0, 0, 0]
    requires s.reader == Scanning(item, 0, 0, 2, 2, 1, false)
    ensures From(s, seq(n, _ => Read)) == s.(reader := Scanning(item, 0, 0, 2, 2, 1 + n, false))
  {
    if n > 0 {
      RestMisses(s, item, n - 1);
      assert seq(n, _ => Read)[..n - 1] == seq(n - 1, _ => Read);
    }
  }
}
