/** Ordering the configured streams by size and assigning them to ports. */
module Streams {
  import opened Basics

  datatype Port = MainPort | SecondPort | ThirdPort | ForthPort

  const PORTS: seq<Port> := [MainPort, SecondPort, ThirdPort, ForthPort]

  /** More streams than this cannot be configured. */
  const MAX_STREAM_NUMBER: nat := 5

  /** A configured stream. `supported` and `isysSupported` are the platform's answers about it. */
  datatype Stream = Stream(width: int, height: int, isInput: bool, isOpaqueRaw: bool, supported: bool, isysSupported: bool)
  {
    function Area(): int { width * height }
    predicate Raw() { !isInput && isOpaqueRaw }
    predicate Ordinary() { !isInput && !isOpaqueRaw }
  }

  datatype Settings = Settings(cropEnabled: bool, checkInput: bool)

  // --------------------------------------------------------------- reference

  /** Stream `a` comes before stream `b`: it is larger, or as large and earlier in the list. */
  predicate Before(streams: seq<Stream>, a: nat, b: nat)
    requires a < |streams| && b < |streams|
  {
    streams[a].Area() > streams[b].Area() || (streams[a].Area() == streams[b].Area() && a < b)
  }

  ghost predicate Arranged(streams: seq<Stream>, ids: seq<nat>) {
    && (forall p :: 0 <= p < |ids| ==> ids[p] < |streams|)
    && (forall p, q :: 0 <= p < q < |ids| ==> Before(streams, ids[p], ids[q]))
  }

  lemma {:induction false} HasMemberUnlessEmpty(ids: seq<nat>)
    ensures ids == [] || exists k :: k in ids
  {
    if ids != [] {
      assert ids[0] in ids;
    }
  }

  /** The order leaves no freedom: two arrangements of the same streams are equal. */
  lemma {:induction false} ArrangementIsUnique(streams: seq<Stream>, a: seq<nat>, b: seq<nat>)
    requires Arranged(streams, a) && Arranged(streams, b)
    requires forall i :: i in a <==> i in b
    ensures a == b
    decreases |a|
  {
    if a == [] || b == [] {
      HasMemberUnlessEmpty(a);
      HasMemberUnlessEmpty(b);
    } else {
      assert a[0] in b;
      assert b[0] in a;
      assert a[0] == b[0];
      var a', b' := a[1..], b[1..];
      forall i
        ensures i in a' <==> i in b'
      {
        assert i in a' <==> i in a && i != a[0];
        assert i in b' <==> i in b && i != b[0];
      }
      ArrangementIsUnique(streams, a', b');
      assert a == [a[0]] + a' && b == [b[0]] + b';
    }
  }

  // ---------------------------------------------------------------- insertion

  ghost predicate AllBelow(ids: seq<nat>, n: nat) {
    forall p :: 0 <= p < |ids| ==> ids[p] < n
  }

  /** `i` goes before the first stream it is larger than, or to the end. */
  function Insert(streams: seq<Stream>, ids: seq<nat>, i: nat): (r: seq<nat>)
    requires i < |streams| && AllBelow(ids, |streams|)
    ensures |r| == |ids| + 1
    ensures forall k :: k in r <==> k in ids || k == i
  {
    if ids == [] then [i]
    else if streams[i].Area() > streams[ids[0]].Area() then [i] + ids
    else
      [ids[0]] + Insert(streams, ids[1..], i)
  }

  /** The streams among the first `n` that are neither input nor opaque RAW, inserted one by one. */
  function Arrange(streams: seq<Stream>, n: nat): (ids: seq<nat>)
    requires n <= |streams|
    ensures AllBelow(ids, n)
  {
    if n == 0 then []
    else if streams[n - 1].Ordinary() then
      var ids := Insert(streams, Arrange(streams, n - 1), n - 1);
      assert forall p :: 0 <= p < |ids| ==> ids[p] in ids;
      ids
    else
      Arrange(streams, n - 1)
  }

  lemma {:induction false} Prepend(streams: seq<Stream>, first: nat, rest: seq<nat>)
    requires first < |streams| && Arranged(streams, rest)
    requires forall k :: k in rest ==> Before(streams, first, k)
    ensures Arranged(streams, [first] + rest)
  {
    var ids := [first] + rest;
    forall p, q | 0 <= p < q < |ids|
      ensures Before(streams, ids[p], ids[q])
    {
      assert ids[q] == rest[q - 1];
      if p > 0 {
        assert ids[p] == rest[p - 1];
      }
    }
  }

  lemma {:induction false} InsertArranges(streams: seq<Stream>, ids: seq<nat>, i: nat)
    requires i < |streams| && Arranged(streams, ids) && AllBelow(ids, i)
    ensures Arranged(streams, Insert(streams, ids, i))
  {
    if ids != [] {
      if streams[i].Area() > streams[ids[0]].Area() {
        forall k | k in ids
          ensures Before(streams, i, k)
        {
          var p :| 0 <= p < |ids| && ids[p] == k;
          assert p > 0 ==> Before(streams, ids[0], k);
        }
        Prepend(streams, i, ids);
      } else {
        InsertArranges(streams, ids[1..], i);
        var rest := Insert(streams, ids[1..], i);
        forall k | k in rest
          ensures Before(streams, ids[0], k)
        {
          if k != i {
            var p :| 1 <= p < |ids| && ids[p] == k;
            assert Before(streams, ids[0], ids[p]);
          }
        }
        Prepend(streams, ids[0], rest);
      }
    }
  }

  lemma {:induction false} ArrangeMembers(streams: seq<Stream>, n: nat, i: nat)
    requires n <= |streams|
    ensures i in Arrange(streams, n) <==> i < n && streams[i].Ordinary()
  {
    if n > 0 {
      ArrangeMembers(streams, n - 1, i);
    }
  }

  /** The result is the one arrangement of exactly the ordinary streams. */
  lemma {:induction false} ArrangeIsArranged(streams: seq<Stream>, n: nat)
    requires n <= |streams|
    ensures Arranged(streams, Arrange(streams, n))
    ensures forall i: nat :: i in Arrange(streams, n) <==> i < n && streams[i].Ordinary()
  {
    forall i: nat
      ensures i in Arrange(streams, n) <==> i < n && streams[i].Ordinary()
    {
      ArrangeMembers(streams, n, i);
    }
    SortedByInsertion(streams, n);
  }

  lemma {:induction false} SortedByInsertion(streams: seq<Stream>, n: nat)
    requires n <= |streams|
    ensures Arranged(streams, Arrange(streams, n))
  {
    if n > 0 {
      SortedByInsertion(streams, n - 1);
      if streams[n - 1].Ordinary() {
        InsertArranges(streams, Arrange(streams, n - 1), n - 1);
      }
    }
  }

  lemma {:induction false} SplitAfterHead(ids: seq<nat>, i: nat, j: nat)
    requires 0 < j <= |ids|
    ensures [ids[0]] + (ids[1..][..j - 1] + [i] + ids[1..][j - 1..]) == ids[..j] + [i] + ids[j..]
  {
    assert ids[1..][j - 1..] == ids[j..];
    assert [ids[0]] + ids[1..][..j - 1] == ids[..j];
  }

  lemma {:induction false} InsertAt(streams: seq<Stream>, ids: seq<nat>, i: nat, j: nat)
    requires i < |streams| && AllBelow(ids, |streams|) && j <= |ids|
    requires forall p :: 0 <= p < j ==> streams[i].Area() <= streams[ids[p]].Area()
    requires j < |ids| ==> streams[i].Area() > streams[ids[j]].Area()
    ensures Insert(streams, ids, i) == ids[..j] + [i] + ids[j..]
  {
    if j > 0 {
      InsertAt(streams, ids[1..], i, j - 1);
      SplitAfterHead(ids, i, j);
    }
  }

  // ------------------------------------------------------------ the analysis

  ghost predicate LoopAccepts(streams: seq<Stream>, settings: Settings, n: nat)
    requires n <= |streams|
  {
    && (forall i, j :: 0 <= i < j < n ==> !(streams[i].isInput && streams[j].isInput))
    && (forall i, j :: 0 <= i < j < n ==> !(streams[i].Raw() && streams[j].Raw()))
    && (forall i :: 0 <= i < n && streams[i].Ordinary() ==> settings.cropEnabled || streams[i].supported)
  }

  /** The last stream of a kind among the first `n`, or -1. */
  function InputBelow(streams: seq<Stream>, n: nat): (r: int)
    requires n <= |streams|
    ensures -1 <= r < n && (r >= 0 ==> streams[r].isInput)
    ensures forall i :: r < i < n ==> !streams[i].isInput
  {
    if n == 0 then -1 else if streams[n - 1].isInput then n - 1 else InputBelow(streams, n - 1)
  }

  function RawBelow(streams: seq<Stream>, n: nat): (r: int)
    requires n <= |streams|
    ensures -1 <= r < n && (r >= 0 ==> streams[r].Raw())
    ensures forall i :: r < i < n ==> !streams[i].Raw()
  {
    if n == 0 then -1 else if streams[n - 1].Raw() then n - 1 else RawBelow(streams, n - 1)
  }

  /** The scan as it goes: each stream is refused or accepted by what came before it. */
  predicate Scanned(streams: seq<Stream>, settings: Settings, n: nat)
    requires n <= |streams|
  {
    n == 0 ||
    (&& Scanned(streams, settings, n - 1)
     && (streams[n - 1].isInput ==> InputBelow(streams, n - 1) < 0)
     && (streams[n - 1].Raw() ==> RawBelow(streams, n - 1) < 0)
     && (streams[n - 1].Ordinary() ==> settings.cropEnabled || streams[n - 1].supported))
  }

  lemma {:induction false} ScannedBefore(streams: seq<Stream>, settings: Settings, m: nat, n: nat)
    requires m <= n <= |streams| && Scanned(streams, settings, n)
    ensures Scanned(streams, settings, m)
    decreases n
  {
    if m < n {
      ScannedBefore(streams, settings, m, n - 1);
    }
  }

  /** The scan accepts exactly the lists with at most one input stream, at most one opaque RAW stream and
      only supported ordinary ones. */
  lemma {:induction false} ScannedIff(streams: seq<Stream>, settings: Settings, n: nat)
    requires n <= |streams|
    ensures Scanned(streams, settings, n) <==> LoopAccepts(streams, settings, n)
  {
    if n > 0 {
      ScannedIff(streams, settings, n - 1);
      var input, raw := InputBelow(streams, n - 1), RawBelow(streams, n - 1);
      assert streams[n - 1].isInput && input >= 0 ==> streams[input].isInput;
      assert streams[n - 1].Raw() && raw >= 0 ==> streams[raw].Raw();
    }
  }

  /** The streams that get a port each: the ordinary ones in order, then the opaque RAW one. */
  function Outputs(streams: seq<Stream>): seq<nat> {
    var raw := RawBelow(streams, |streams|);
    Arrange(streams, |streams|) + (if raw >= 0 then [raw] else [])
  }

  /** The input stream, which is ignored beside an opaque RAW one. */
  function UsedInput(streams: seq<Stream>): int {
    if RawBelow(streams, |streams|) >= 0 then -1 else InputBelow(streams, |streams|)
  }

  ghost predicate Accepts(streams: seq<Stream>, settings: Settings) {
    var input := UsedInput(streams);
    && LoopAccepts(streams, settings, |streams|)
    && (settings.checkInput ==> input >= 0)
    && (input >= 0 ==> Outputs(streams) != [] && streams[input].isysSupported)
  }

  class CameraDevice {
    var sortedStreamIds: seq<nat>
    var streamIdToPortMap: map<nat, Port>

    /** Puts stream `i` before the first one it is larger than. */
    method InsertByArea(streams: seq<Stream>, i: nat)
      requires i < |streams| && AllBelow(sortedStreamIds, |streams|)
      modifies this`sortedStreamIds
      ensures sortedStreamIds == Insert(streams, old(sortedStreamIds), i)
    {
      ghost var ids := sortedStreamIds;
      var j := 0;
      while j < |sortedStreamIds|
        invariant 0 <= j <= |sortedStreamIds| && sortedStreamIds == ids
        invariant forall p :: 0 <= p < j ==> streams[i].Area() <= streams[ids[p]].Area()
      {
        if streams[i].Area() > streams[sortedStreamIds[j]].Area() {
          InsertAt(streams, ids, i, j);
          sortedStreamIds := sortedStreamIds[..j] + [i] + sortedStreamIds[j..];
          return;
        }
        j := j + 1;
      }
      InsertAt(streams, ids, i, j);
      assert ids[..j] + [i] + ids[j..] == ids + [i];
      sortedStreamIds := sortedStreamIds + [i];
    }

    /** Scans the streams: orders the ordinary ones and finds the input and the opaque RAW one. */
    method ScanStreams(streams: seq<Stream>, settings: Settings) returns (ok: bool, input: int, raw: int)
      modifies this
      ensures ok <==> Scanned(streams, settings, |streams|)
      ensures ok ==> sortedStreamIds == Arrange(streams, |streams|) && streamIdToPortMap == map[]
      ensures ok ==> input == InputBelow(streams, |streams|) && raw == RawBelow(streams, |streams|)
    {
      sortedStreamIds, streamIdToPortMap := [], map[];
      input, raw := -1, -1;
      ok := true;
      var i := 0;
      while i < |streams|
        invariant 0 <= i <= |streams|
        invariant Scanned(streams, settings, i) && streamIdToPortMap == map[]
        invariant sortedStreamIds == Arrange(streams, i)
        invariant input == InputBelow(streams, i) && raw == RawBelow(streams, i)
      {
        if Scanned(streams, settings, |streams|) {
          ScannedBefore(streams, settings, i + 1, |streams|);
        }
        var stream := streams[i];
        if stream.isInput {
          if input >= 0 {
            return false, input, raw;
          }
          input := i;
        } else if stream.isOpaqueRaw {
          if raw >= 0 {
            return false, input, raw;
          }
          raw := i;
        } else {
          if !settings.cropEnabled && !stream.supported {
            return false, input, raw;
          }
          InsertByArea(streams, i);
        }
        i := i + 1;
      }
    }

    /** Assigns the sorted streams to the ports in turn, as far as there are ports. */
    method AssignPorts() returns (enough: bool)
      requires streamIdToPortMap == map[]
      modifies this`streamIdToPortMap
      ensures enough <==> |sortedStreamIds| <= |PORTS|
      ensures streamIdToPortMap == PortsOf(sortedStreamIds, if enough then |sortedStreamIds| else |PORTS|)
    {
      var i := 0;
      while i < |sortedStreamIds|
        invariant 0 <= i <= |sortedStreamIds| && i <= |PORTS| && streamIdToPortMap == PortsOf(sortedStreamIds, i)
      {
        if i == |PORTS| {
          return false;
        }
        streamIdToPortMap := streamIdToPortMap[sortedStreamIds[i] := PORTS[i]];
        i := i + 1;
      }
      return true;
    }

    /** Orders the streams and assigns ports.  More output streams than ports overrun the table of ports, once
        each port is taken and before the input stream is looked at. */
    method AnalyzeStream(streams: seq<Stream>, settings: Settings) returns (ending: Ending)
      modifies this
      ensures ending.Overrun? <==> LoopAccepts(streams, settings, |streams|) && |Outputs(streams)| > |PORTS|
      ensures ending.Done? <==> Accepts(streams, settings) && |Outputs(streams)| <= |PORTS|
      ensures ending.Overrun? ==>
                sortedStreamIds == Outputs(streams) && streamIdToPortMap == PortsOf(Outputs(streams), |PORTS|)
      ensures ending.Done? ==>
                var outputs, input := Outputs(streams), UsedInput(streams);
                if input >= 0 then
                  sortedStreamIds == outputs + [input] && streamIdToPortMap == PortsOf(outputs, |outputs|)[input := MainPort]
                else
                  sortedStreamIds == outputs && streamIdToPortMap == PortsOf(outputs, |outputs|)
    {
      var ok, input, raw := ScanStreams(streams, settings);
      ScannedIff(streams, settings, |streams|);
      if !ok {
        return Refused;
      }
      if raw >= 0 {
        sortedStreamIds := sortedStreamIds + [raw];
        input := -1;
      }
      assert sortedStreamIds == Outputs(streams) && input == UsedInput(streams);
      var enough := AssignPorts();
      if !enough {
        return Overrun;
      }
      if settings.checkInput && input < 0 {
        return Refused;
      }
      if input >= 0 {
        if sortedStreamIds == [] {
          return Refused;
        }
        if !streams[input].isysSupported {
          return Refused;
        }
        sortedStreamIds := sortedStreamIds + [input];
        streamIdToPortMap := streamIdToPortMap[input := MainPort];
      }
      return Done;
    }
  }

  /** The first `n` output streams on the ports in turn. */
  function PortsOf(outputs: seq<nat>, n: nat): map<nat, Port>
    requires n <= |outputs| && n <= |PORTS|
  {
    if n == 0 then map[] else PortsOf(outputs, n - 1)[outputs[n - 1] := PORTS[n - 1]]
  }

  // ---------------------------------------------------------- what it means

  lemma {:induction false} PortAt(outputs: seq<nat>, n: nat)
    requires n <= |outputs| && n <= |PORTS|
    requires forall p, q :: 0 <= p < q < |outputs| ==> outputs[p] != outputs[q]
    ensures forall p :: 0 <= p < n ==> outputs[p] in PortsOf(outputs, n) && PortsOf(outputs, n)[outputs[p]] == PORTS[p]
    ensures forall i :: i in PortsOf(outputs, n) ==> i in outputs[..n]
  {
    if n > 0 {
      PortAt(outputs, n - 1);
      assert outputs[..n] == outputs[..n - 1] + [outputs[n - 1]];
    }
  }

  /** The output streams are all the streams but the input, each once, with the opaque RAW one last;
      the others run from large to small with ties in list order. */
  lemma {:induction false} OutputsAreOrdered(streams: seq<Stream>, settings: Settings)
    requires LoopAccepts(streams, settings, |streams|)
    ensures var outputs, sorted := Outputs(streams), Arrange(streams, |streams|);
            && sorted <= outputs && Arranged(streams, sorted)
            && (forall i: nat :: i in outputs <==> i < |streams| && !streams[i].isInput)
            && (forall p, q :: 0 <= p < q < |outputs| ==> outputs[p] != outputs[q])
            && (forall p :: |sorted| <= p < |outputs| ==> streams[outputs[p]].Raw())
  {
    ArrangeIsArranged(streams, |streams|);
    var outputs, sorted := Outputs(streams), Arrange(streams, |streams|);
    forall p, q | 0 <= p < q < |outputs|
      ensures outputs[p] != outputs[q]
    {
      assert outputs[p] == sorted[p] && sorted[p] in sorted;
      if q < |sorted| {
        assert Before(streams, sorted[p], sorted[q]);
      }
    }
    forall i: nat
      ensures i in outputs <==> i < |streams| && !streams[i].isInput
    {
      var raw := RawBelow(streams, |streams|);
      assert i in outputs <==> i in sorted || (raw >= 0 && i == raw);
    }
  }

  lemma {:induction false} PortsDiffer(p: nat, q: nat)
    requires p < |PORTS| && q < |PORTS| && p != q
    ensures PORTS[p] != PORTS[q]
  {
  }

  lemma {:induction false} DistinctOutputsDistinctPorts(outputs: seq<nat>)
    requires |outputs| <= |PORTS| && forall p, q :: 0 <= p < q < |outputs| ==> outputs[p] != outputs[q]
    ensures var ports := PortsOf(outputs, |outputs|);
            && (forall i :: i in ports <==> i in outputs)
            && (forall i, j :: i in ports && j in ports && i != j ==> ports[i] != ports[j])
            && (outputs != [] ==> outputs[0] in ports && ports[outputs[0]] == MainPort)
  {
    var ports := PortsOf(outputs, |outputs|);
    PortAt(outputs, |outputs|);
    assert outputs[..|outputs|] == outputs;
    forall i, j | i in ports && j in ports && i != j
      ensures ports[i] != ports[j]
    {
      var p :| 0 <= p < |outputs| && outputs[p] == i;
      var q :| 0 <= q < |outputs| && outputs[q] == j;
      PortsDiffer(p, q);
    }
  }

  /** Of two ordinary streams the larger one comes first in the order, and of two as large the earlier one. */
  lemma {:induction false} LargerComesFirst(streams: seq<Stream>, n: nat, p: nat, q: nat)
    requires n <= |streams| && p < q < |Arrange(streams, n)|
    ensures var a, b := Arrange(streams, n)[p], Arrange(streams, n)[q];
            var areaA, areaB := streams[a].width * streams[a].height, streams[b].width * streams[b].height;
            areaA > areaB || (areaA == areaB && a < b)
  {
    ArrangeIsArranged(streams, n);
    assert Before(streams, Arrange(streams, n)[p], Arrange(streams, n)[q]);
  }

  /** What is found is there, and what is there is found. */
  lemma {:induction false} FoundIff(streams: seq<Stream>)
    ensures InputBelow(streams, |streams|) >= 0 <==> exists i :: 0 <= i < |streams| && streams[i].isInput
    ensures RawBelow(streams, |streams|) >= 0 <==> exists i :: 0 <= i < |streams| && !streams[i].isInput && streams[i].isOpaqueRaw
    ensures UsedInput(streams) == if exists i :: 0 <= i < |streams| && !streams[i].isInput && streams[i].isOpaqueRaw then -1
                                  else InputBelow(streams, |streams|)
  {
    var input, raw := InputBelow(streams, |streams|), RawBelow(streams, |streams|);
    assert input >= 0 ==> streams[input].isInput;
    assert raw >= 0 ==> streams[raw].Raw();
    assert forall i :: 0 <= i < |streams| ==> (streams[i].Raw() <==> !streams[i].isInput && streams[i].isOpaqueRaw);
  }

  lemma {:induction false} AnyOutputIff(streams: seq<Stream>, settings: Settings)
    requires LoopAccepts(streams, settings, |streams|)
    ensures Outputs(streams) != [] <==> exists j :: 0 <= j < |streams| && !streams[j].isInput
  {
    OutputsAreOrdered(streams, settings);
    HasMemberUnlessEmpty(Outputs(streams));
  }

  /** The scan accepts at most one input stream and one opaque RAW stream, and ordinary streams that are supported unless
      the image is cropped. */
  lemma {:induction false} LoopAcceptsIff(streams: seq<Stream>, settings: Settings)
    ensures LoopAccepts(streams, settings, |streams|) <==>
            && (forall i, j :: 0 <= i < j < |streams| ==> !(streams[i].isInput && streams[j].isInput))
            && (forall i, j :: 0 <= i < j < |streams| && streams[i].isOpaqueRaw && streams[j].isOpaqueRaw ==>
                  streams[i].isInput || streams[j].isInput)
            && (forall i :: 0 <= i < |streams| && !streams[i].isInput && !streams[i].isOpaqueRaw ==>
                  settings.cropEnabled || streams[i].supported)
  {
  }

  lemma {:induction false} OnlyInput(streams: seq<Stream>, settings: Settings)
    requires LoopAccepts(streams, settings, |streams|) && InputBelow(streams, |streams|) >= 0
    ensures streams[InputBelow(streams, |streams|)].isysSupported <==>
            forall i :: 0 <= i < |streams| && streams[i].isInput ==> streams[i].isysSupported
  {
  }

  /** Of what the scan accepts, configurations are accepted that have an input stream where one is called for, which does
      not count beside an opaque RAW stream; one that counts has a supported size and an output beside it. */
  lemma {:induction false} AcceptsIff(streams: seq<Stream>, settings: Settings)
    ensures var hasInput := exists i :: 0 <= i < |streams| && streams[i].isInput;
            var hasRaw := exists i :: 0 <= i < |streams| && !streams[i].isInput && streams[i].isOpaqueRaw;
            Accepts(streams, settings) <==>
            && LoopAccepts(streams, settings, |streams|)
            && (settings.checkInput ==> hasInput && !hasRaw)
            && (hasInput && !hasRaw ==>
                  && (exists j :: 0 <= j < |streams| && !streams[j].isInput)
                  && (forall i :: 0 <= i < |streams| && streams[i].isInput ==> streams[i].isysSupported))
  {
    FoundIff(streams);
    if LoopAccepts(streams, settings, |streams|) {
      AnyOutputIff(streams, settings);
      if InputBelow(streams, |streams|) >= 0 {
        OnlyInput(streams, settings);
      }
    }
  }

  /** The ports are given out in turn. */
  lemma {:induction false} PortsInTurn(streams: seq<Stream>, settings: Settings, p: nat)
    requires LoopAccepts(streams, settings, |streams|) && |Outputs(streams)| <= |PORTS| && p < |Outputs(streams)|
    ensures var outputs := Outputs(streams);
            var ports := PortsOf(outputs, |outputs|);
            && p < 4 && outputs[p] in ports
            && ports[outputs[p]] == if p == 0 then MainPort else if p == 1 then SecondPort else if p == 2 then ThirdPort else ForthPort
  {
    OutputsAreOrdered(streams, settings);
    PortAt(Outputs(streams), |Outputs(streams)|);
  }

  /** Each output stream has a port of its own, the first one the main port, and no other stream has one
      but the input, which shares the main port. */
  lemma {:induction false} PortsAreDistinct(streams: seq<Stream>, settings: Settings)
    requires LoopAccepts(streams, settings, |streams|) && |Outputs(streams)| <= |PORTS|
    ensures var outputs := Outputs(streams);
            var ports := PortsOf(outputs, |outputs|);
            && (forall i :: i in ports <==> i in outputs)
            && (forall i, j :: i in ports && j in ports && i != j ==> ports[i] != ports[j])
            && (outputs != [] ==> outputs[0] in ports && ports[outputs[0]] == MainPort)
  {
    OutputsAreOrdered(streams, settings);
    DistinctOutputsDistinctPorts(Outputs(streams));
  }

  lemma {:induction false} StreamsAreCounted(streams: seq<Stream>, settings: Settings, n: nat)
    requires n <= |streams| && Scanned(streams, settings, n)
    ensures n == |Arrange(streams, n)| + (if RawBelow(streams, n) >= 0 then 1 else 0) +
                 (if InputBelow(streams, n) >= 0 then 1 else 0)
  {
    if n > 0 {
      StreamsAreCounted(streams, settings, n - 1);
    }
  }

  /** Of the configurations that can be set, exactly those of five output streams lack a port. */
  lemma {:induction false} PortsSufficeIff(streams: seq<Stream>, settings: Settings)
    requires LoopAccepts(streams, settings, |streams|) && |streams| <= MAX_STREAM_NUMBER
    ensures |Outputs(streams)| <= |PORTS| <==>
            |streams| < MAX_STREAM_NUMBER || exists i :: 0 <= i < |streams| && streams[i].isInput
  {
    ScannedIff(streams, settings, |streams|);
    StreamsAreCounted(streams, settings, |streams|);
  }

  /** Five supported streams, none of them an input or opaque RAW, pass every check if no input is called for,
      and the scan in any case; there is no port for the fifth. */
  lemma {:induction false} FiveOutputsOverrun(streams: seq<Stream>, settings: Settings)
    requires |streams| == MAX_STREAM_NUMBER && forall i :: 0 <= i < |streams| ==> streams[i].Ordinary() && streams[i].supported
    ensures LoopAccepts(streams, settings, |streams|) && |Outputs(streams)| == 5 > |PORTS|
    ensures Accepts(streams, settings) <==> !settings.checkInput
  {
    ScannedIff(streams, settings, |streams|);
    StreamsAreCounted(streams, settings, |streams|);
  }
}
