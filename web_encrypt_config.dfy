/**
 * The list surgery done while registering the handler: `set` inserts the handler in front
 * of every default body processor in a resolver or handler list, and `newList` merges
 * two body-advice lists without duplicates.
 */
module WebEncryptConfig {

  /**
   * What `set` appends for one element `o` of the original list: the handler `t` first
   * when `o` is a body processor (`o instanceof RequestResponseBodyMethodProcessor`), then `o`.
   */
  function Chunk<T>(o: T, t: T, isProcessor: T -> bool): seq<T>
  {
    if isProcessor(o) then [t, o] else [o]
  }

  /** Reference definition of the list `set` hands to its consumer. */
  function Spliced<T>(list: seq<T>, t: T, isProcessor: T -> bool): seq<T>
  {
    if list == [] then [] else Chunk(list[0], t, isProcessor) + Spliced(list[1..], t, isProcessor)
  }

  /** Number of body processors in a list. */
  function CountProcessors<T>(list: seq<T>, isProcessor: T -> bool): nat
  {
    if list == [] then 0 else (if isProcessor(list[0]) then 1 else 0) + CountProcessors(list[1..], isProcessor)
  }

  /**
   * Inverse of `Spliced`: drops each `t` that stands right in front of a body processor,
   * reading the list chunk by chunk.
   */
  function Unspliced<T(==)>(list: seq<T>, t: T, isProcessor: T -> bool): seq<T>
  {
    if list == [] then []
    else if |list| >= 2 && list[0] == t && isProcessor(list[1]) then [list[1]] + Unspliced(list[2..], t, isProcessor)
    else [list[0]] + Unspliced(list[1..], t, isProcessor)
  }

  /** Splicing distributes over concatenation. */
  lemma {:induction false} SplicedAppend<T>(a: seq<T>, b: seq<T>, t: T, isProcessor: T -> bool)
    ensures Spliced(a + b, t, isProcessor) == Spliced(a, t, isProcessor) + Spliced(b, t, isProcessor)
  {
    if a != [] {
      assert (a + b)[1..] == a[1..] + b;
      SplicedAppend(a[1..], b, t, isProcessor);
    } else {
      assert a + b == b;
    }
  }

  /**
   * `set`: walks the supplied list once, appending the handler before every body processor
   * and then the element itself; the result is what the consumer receives.
   */
  method Set<T>(list: seq<T>, t: T, isProcessor: T -> bool) returns (arrayList: seq<T>)
    ensures arrayList == Spliced(list, t, isProcessor)
  {
    arrayList := [];
    for i := 0 to |list|
      invariant arrayList == Spliced(list[..i], t, isProcessor)
    {
      var o := list[i];
      if isProcessor(o) {
        arrayList := arrayList + [t];
      }
      arrayList := arrayList + [o];
      assert list[..i + 1] == list[..i] + [o];
      SplicedAppend(list[..i], [o], t, isProcessor);
    }
    assert list[..|list|] == list;
  }

  /** The result is one element longer per body processor in the input. */
  lemma {:induction false} SplicedLength<T>(list: seq<T>, t: T, isProcessor: T -> bool)
    ensures |Spliced(list, t, isProcessor)| == |list| + CountProcessors(list, isProcessor)
  {
    if list != [] {
      SplicedLength(list[1..], t, isProcessor);
    }
  }

  /** Removing the inserted handlers gives back the original list, in its order. */
  lemma {:induction false} UnsplicedSpliced<T>(list: seq<T>, t: T, isProcessor: T -> bool)
    ensures Unspliced(Spliced(list, t, isProcessor), t, isProcessor) == list
  {
    if list != [] {
      var o, rest := list[0], list[1..];
      var tail := Spliced(rest, t, isProcessor);
      UnsplicedSpliced(rest, t, isProcessor);
      if isProcessor(o) {
        assert Spliced(list, t, isProcessor) == [t, o] + tail;
        assert ([t, o] + tail)[2..] == tail;
      } else {
        assert Spliced(list, t, isProcessor) == [o] + tail;
        // `o` cannot open a handler-processor pair: either it is not `t`, or `t` is not a
        // processor and hence neither is the head of `tail`.
        if o == t && tail != [] {
          assert tail[0] == t || tail[0] == rest[0];
          assert !isProcessor(tail[0]);
        }
        assert ([o] + tail)[1..] == tail;
      }
    }
  }

  /**
   * Every body processor of the input is immediately preceded by the handler in the
   * result, at the position reached by splicing the elements before it.
   */
  lemma HandlerPrecedesEveryProcessor<T>(list: seq<T>, t: T, isProcessor: T -> bool, j: nat)
    requires j < |list|
    ensures var p := |Spliced(list[..j], t, isProcessor)|;
            var r := Spliced(list, t, isProcessor);
            if isProcessor(list[j]) then p + 1 < |r| && r[p] == t && r[p + 1] == list[j]
            else p < |r| && r[p] == list[j]
  {
    assert list == list[..j] + ([list[j]] + list[j + 1..]);
    SplicedAppend(list[..j], [list[j]] + list[j + 1..], t, isProcessor);
    assert ([list[j]] + list[j + 1..])[1..] == list[j + 1..];
  }

  /** A list with no body processor is handed on unchanged. */
  lemma {:induction false} NoProcessorNoChange<T>(list: seq<T>, t: T, isProcessor: T -> bool)
    requires CountProcessors(list, isProcessor) == 0
    ensures Spliced(list, t, isProcessor) == list
  {
    if list != [] {
      NoProcessorNoChange(list[1..], t, isProcessor);
    }
  }

  lemma {:induction false} ProcessorCounted<T>(list: seq<T>, isProcessor: T -> bool, j: nat)
    requires j < |list| && isProcessor(list[j])
    ensures CountProcessors(list, isProcessor) > 0
  {
    if j > 0 {
      ProcessorCounted(list[1..], isProcessor, j - 1);
    }
  }

  /**
   * The handler is itself a body processor, so splicing it into a list that already
   * contains it (or any processor) inserts it again: `set` is not idempotent.
   */
  lemma SpliceTwiceGrows<T>(list: seq<T>, t: T, isProcessor: T -> bool, j: nat)
    requires isProcessor(t)
    requires j < |list| && isProcessor(list[j])
    ensures |Spliced(Spliced(list, t, isProcessor), t, isProcessor)| > |Spliced(list, t, isProcessor)|
  {
    var once := Spliced(list, t, isProcessor);
    HandlerPrecedesEveryProcessor(list, t, isProcessor, j);
    ProcessorCounted(once, isProcessor, |Spliced(list[..j], t, isProcessor)|);
    SplicedLength(once, t, isProcessor);
  }

  /** The elements of a sequence, as a set. */
  function Elements<T>(s: seq<T>): set<T>
  {
    set x | x in s
  }

  predicate NoDuplicates<T(==)>(s: seq<T>)
  {
    forall i, j :: 0 <= i < j < |s| ==> s[i] != s[j]
  }

  lemma ElementsOfPrefix<T>(s: seq<T>, i: nat)
    requires i < |s|
    ensures Elements(s[..i + 1]) == Elements(s[..i]) + {s[i]}
  {
    assert s[..i + 1] == s[..i] + [s[i]];
  }

  lemma AppendNew<T>(s: seq<T>, x: T)
    requires NoDuplicates(s) && x !in Elements(s)
    ensures NoDuplicates(s + [x]) && Elements(s + [x]) == Elements(s) + {x}
  {
  }

  /**
   * `newList`: a hash set filled from `first` then `second`, copied into a list. The
   * set's iteration order is unspecified, so the order of the result is too: only its
   * elements and their uniqueness are promised.
   */
  method NewList<T(==)>(first: seq<T>, second: seq<T>) returns (result: seq<T>)
    ensures Elements(result) == Elements(first) + Elements(second)
    ensures NoDuplicates(result)
  {
    var objects: set<T> := {};
    for i := 0 to |first|
      invariant objects == Elements(first[..i])
    {
      ElementsOfPrefix(first, i);
      objects := objects + {first[i]};
    }
    assert first[..|first|] == first;
    for i := 0 to |second|
      invariant objects == Elements(first) + Elements(second[..i])
    {
      ElementsOfPrefix(second, i);
      objects := objects + {second[i]};
    }
    assert second[..|second|] == second;
    result := [];
    var rest := objects;
    while rest != {}
      invariant rest + Elements(result) == objects
      invariant rest !! Elements(result)
      invariant NoDuplicates(result)
      decreases |rest|
    {
      var o :| o in rest;
      AppendNew(result, o);
      result := result + [o];
      rest := rest - {o};
    }
  }
}
