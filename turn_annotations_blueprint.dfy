/**
 * The data preparation of the static turn-annotation crowdsourcing task:
 * self-chat dialogues are flattened into utterance lists without persona
 * lines, then grouped into units of `subtasks_per_unit` conversations; the
 * in-flight variant regroups the same conversations into full units only and
 * appends one quality-control conversation to each.
 */
module TurnAnnotationsBlueprint {
  import opened Wrappers
  import opened Strings
  import opened Sequences

  // ======================================================== data

  /** Utterances mentioning this word are persona context and are not shown. */
  const PERSONA: string := "persona"

  /** One exchange of a self-chat: the texts of agent 0's and agent 1's turns (`utt[0]['text']`, `utt[1]['text']`). */
  datatype UtterancePair = UtterancePair(first: string, second: string)

  /** One input conversation, the value of its `dialog` key. */
  datatype RawDialogue = RawDialogue(dialog: seq<UtterancePair>)

  /** One displayed utterance, `{'text': ..., 'agent_idx': ...}`. */
  datatype Utterance = Utterance(text: string, agentIdx: nat)

  /** A processed conversation: the utterances shown to the annotator, in order. */
  type Dialogue = seq<Utterance>

  /** The exceptions the two constructors raise. */
  datatype BlueprintError =
    | NonPositiveSubtasks(subtasksPerUnit: int) // the explicit check on `subtasks_per_unit`
    | NoCompleteGroup                           // `len(chunk)` with `chunk` never bound
    | NoQualityControl                          // `i % len(quality_control_convos)` with an empty list

  function Min(a: int, b: int): int {
    if a <= b then a else b
  }

  // ======================================================== process_data

  /** What one utterance pair contributes: each text without `persona`, agent 0 first. */
  function KeptUtterances(utt: UtterancePair): (kept: seq<Utterance>)
    ensures |kept| <= 2
    ensures |kept| == 2 <==> !Contains(utt.first, PERSONA) && !Contains(utt.second, PERSONA)
  {
    (if !Contains(utt.first, PERSONA) then [Utterance(utt.first, 0)] else [])
    + (if !Contains(utt.second, PERSONA) then [Utterance(utt.second, 1)] else [])
  }

  /** The displayed utterances of the first `i` pairs of a conversation. */
  function ProcessedDialogueUpTo(pairs: seq<UtterancePair>, i: nat): Dialogue
    requires i <= |pairs|
    decreases i
  {
    if i == 0 then [] else ProcessedDialogueUpTo(pairs, i - 1) + KeptUtterances(pairs[i - 1])
  }

  /** One conversation as `process_data` renders it. */
  function ProcessedDialogue(d: RawDialogue): Dialogue {
    ProcessedDialogueUpTo(d.dialog, |d.dialog|)
  }

  /** `process_data`: one processed conversation per input conversation, in order. */
  function ProcessedData(data: seq<RawDialogue>): (processed: seq<Dialogue>)
    ensures |processed| == |data|
  {
    MapUpTo(data, |data|, ProcessedDialogue)
  }

  /** At most two utterances per pair, and exactly two per pair when no text mentions persona. */
  lemma {:induction false} ProcessedDialogueLength(pairs: seq<UtterancePair>, i: nat)
    requires i <= |pairs|
    ensures |ProcessedDialogueUpTo(pairs, i)| <= 2 * i
    ensures (forall k :: 0 <= k < i ==> !Contains(pairs[k].first, PERSONA) && !Contains(pairs[k].second, PERSONA))
      ==> |ProcessedDialogueUpTo(pairs, i)| == 2 * i
    decreases i
  {
    if i > 0 {
      ProcessedDialogueLength(pairs, i - 1);
    }
  }

  /** No kept utterance mentions persona, and each is tagged with agent 0 or agent 1. */
  lemma {:induction false} ProcessedDialogueNoPersona(pairs: seq<UtterancePair>, i: nat)
    requires i <= |pairs|
    ensures forall u :: u in ProcessedDialogueUpTo(pairs, i) ==>
      !Contains(u.text, PERSONA) && (u.agentIdx == 0 || u.agentIdx == 1)
    decreases i
  {
    if i > 0 {
      ProcessedDialogueNoPersona(pairs, i - 1);
    }
  }

  /** Every persona-free text is kept: agent 0's with index 0, agent 1's with index 1. */
  lemma {:induction false} ProcessedDialogueKeeps(pairs: seq<UtterancePair>, i: nat)
    requires i <= |pairs|
    ensures forall k :: 0 <= k < i && !Contains(pairs[k].first, PERSONA) ==>
      Utterance(pairs[k].first, 0) in ProcessedDialogueUpTo(pairs, i)
    ensures forall k :: 0 <= k < i && !Contains(pairs[k].second, PERSONA) ==>
      Utterance(pairs[k].second, 1) in ProcessedDialogueUpTo(pairs, i)
    decreases i
  {
    if i > 0 {
      ProcessedDialogueKeeps(pairs, i - 1);
      var prev := ProcessedDialogueUpTo(pairs, i - 1);
      var kept := KeptUtterances(pairs[i - 1]);
      assert ProcessedDialogueUpTo(pairs, i) == prev + kept;
      forall k | 0 <= k < i && !Contains(pairs[k].first, PERSONA)
        ensures Utterance(pairs[k].first, 0) in prev + kept
      {
        if k == i - 1 {
          assert kept[0] == Utterance(pairs[k].first, 0);
        }
      }
      forall k | 0 <= k < i && !Contains(pairs[k].second, PERSONA)
        ensures Utterance(pairs[k].second, 1) in prev + kept
      {
        if k == i - 1 {
          assert kept[|kept| - 1] == Utterance(pairs[k].second, 1);
        }
      }
    }
  }

  /** Nothing else is kept: each utterance is agent 0's or agent 1's text of some pair, tagged as such. */
  lemma {:induction false} ProcessedDialogueFrom(pairs: seq<UtterancePair>, i: nat)
    requires i <= |pairs|
    ensures forall u :: u in ProcessedDialogueUpTo(pairs, i) ==>
      exists k :: 0 <= k < i && (u == Utterance(pairs[k].first, 0) || u == Utterance(pairs[k].second, 1))
    decreases i
  {
    if i > 0 {
      ProcessedDialogueFrom(pairs, i - 1);
      var prev := ProcessedDialogueUpTo(pairs, i - 1);
      var kept := KeptUtterances(pairs[i - 1]);
      assert ProcessedDialogueUpTo(pairs, i) == prev + kept;
      forall u | u in prev + kept
        ensures exists k :: 0 <= k < i && (u == Utterance(pairs[k].first, 0) || u == Utterance(pairs[k].second, 1))
      {
        if u in kept {
          assert u == Utterance(pairs[i - 1].first, 0) || u == Utterance(pairs[i - 1].second, 1);
        }
      }
    }
  }

  /** `process_data` keeps the number and order of conversations: output `j` renders input `j`. */
  lemma ProcessedDataAt(data: seq<RawDialogue>, j: nat)
    requires j < |data|
    ensures |ProcessedData(data)| == |data|
    ensures ProcessedData(data)[j] == ProcessedDialogue(data[j])
  {
    MapUpToAt(data, |data|, j, ProcessedDialogue);
  }

  // ======================================================== chunking

  /**
   * The groups `data[i:i+k]`, `data[i+k:i+2k]`, ... up to the end of `data`,
   * Python's slice clamping the last one.
   */
  function ChunksFrom<T>(data: seq<T>, k: nat, i: nat): seq<seq<T>>
    requires k > 0
    decreases |data| - i
  {
    if |data| <= i then [] else [data[i..Min(i + k, |data|)]] + ChunksFrom(data, k, i + k)
  }

  /** `[data[i:i+k] for i in range(0, len(data), k)]`. */
  function Chunks<T>(data: seq<T>, k: nat): (groups: seq<seq<T>>)
    requires k > 0
    ensures |groups| == 0 <==> |data| == 0
    ensures |groups| > 0 ==> groups[0] == data[..Min(k, |data|)]
  {
    ChunksFrom(data, k, 0)
  }

  /** The concatenation of a list of groups. */
  function Flatten<T>(groups: seq<seq<T>>): seq<T> {
    if |groups| == 0 then [] else groups[0] + Flatten(groups[1..])
  }

  lemma {:induction false} FlattenAppend<T>(a: seq<seq<T>>, b: seq<seq<T>>)
    ensures Flatten(a + b) == Flatten(a) + Flatten(b)
    decreases |a|
  {
    if |a| > 0 {
      assert (a + b)[0] == a[0];
      assert (a + b)[1..] == a[1..] + b;
      FlattenAppend(a[1..], b);
      assert Flatten(a + b) == a[0] + Flatten(a[1..] + b);
    } else {
      assert a + b == b;
    }
  }

  /** Multiplying by a non-negative factor keeps order. */
  lemma {:induction false} MulMonotone(a: nat, b: nat, k: nat)
    requires a <= b
    ensures a * k <= b * k
    decreases b - a
  {
    if a < b {
      MulMonotone(a, b - 1, k);
    }
  }

  /** `n // k` groups of `k` fit in `n`, and none does exactly when `n < k`. */
  lemma FullGroups(n: nat, k: nat)
    requires k > 0
    ensures n == (n / k) * k + n % k && 0 <= n % k < k
    ensures n / k == 0 <==> n < k
  {
  }

  /** Flattening the groups from `i` on gives back `data[i:]`. */
  lemma {:induction false} FlattenChunksFrom<T>(data: seq<T>, k: nat, i: nat)
    requires k > 0 && i <= |data|
    ensures Flatten(ChunksFrom(data, k, i)) == data[i..]
    decreases |data| - i
  {
    if i < |data| {
      var e := Min(i + k, |data|);
      var rest := ChunksFrom(data, k, i + k);
      assert ChunksFrom(data, k, i) == [data[i..e]] + rest;
      assert ([data[i..e]] + rest)[1..] == rest;
      if i + k <= |data| {
        FlattenChunksFrom(data, k, i + k);
      } else {
        assert rest == [];
      }
      assert data[i..] == data[i..e] + data[e..];
    }
  }

  /** Concatenating the groups gives back the list: flatten after chunk is the identity. */
  lemma FlattenChunks<T>(data: seq<T>, k: nat)
    requires k > 0
    ensures Flatten(Chunks(data, k)) == data
  {
    FlattenChunksFrom(data, k, 0);
  }

  /**
   * Group `j` counted from `i` exists exactly when it starts inside the list,
   * and it is the slice starting `j * k` after `i`, clamped to the list.
   */
  lemma {:induction false} ChunkAtFrom<T>(data: seq<T>, k: nat, i: nat, j: nat)
    requires k > 0
    ensures j < |ChunksFrom(data, k, i)| <==> i + j * k < |data|
    ensures j < |ChunksFrom(data, k, i)| ==>
      ChunksFrom(data, k, i)[j] == data[i + j * k..Min(i + j * k + k, |data|)]
    decreases j
  {
    MulMonotone(0, j, k);
    if i < |data| {
      var rest := ChunksFrom(data, k, i + k);
      assert ChunksFrom(data, k, i) == [data[i..Min(i + k, |data|)]] + rest;
      if j > 0 {
        ChunkAtFrom(data, k, i + k, j - 1);
        assert i + k + (j - 1) * k == i + j * k;
      }
    }
  }

  /** Group `j` is `data[j*k:(j+1)*k]`, clamped; it exists exactly when `j * k < len(data)`. */
  lemma ChunkAt<T>(data: seq<T>, k: nat, j: nat)
    requires k > 0
    ensures j < |Chunks(data, k)| <==> j * k < |data|
    ensures j < |Chunks(data, k)| ==> Chunks(data, k)[j] == data[j * k..Min(j * k + k, |data|)]
  {
    ChunkAtFrom(data, k, 0, j);
  }

  /** Every group holds 1 to `k` items, and every group but the last exactly `k`. */
  lemma ChunkSizes<T>(data: seq<T>, k: nat)
    requires k > 0
    ensures forall j :: 0 <= j < |Chunks(data, k)| ==>
      0 < |Chunks(data, k)[j]| <= k && (j < |Chunks(data, k)| - 1 ==> |Chunks(data, k)[j]| == k)
  {
    forall j | 0 <= j < |Chunks(data, k)|
      ensures 0 < |Chunks(data, k)[j]| <= k && (j < |Chunks(data, k)| - 1 ==> |Chunks(data, k)[j]| == k)
    {
      ChunkAt(data, k, j);
      ChunkAt(data, k, j + 1);
      assert (j + 1) * k == j * k + k;
    }
  }

  /** There are `ceil(len(data) / k)` groups: the fewest that, `k` apiece, cover the list. */
  lemma ChunkCount<T>(data: seq<T>, k: nat)
    requires k > 0
    ensures |data| <= |Chunks(data, k)| * k
    ensures |Chunks(data, k)| > 0 ==> (|Chunks(data, k)| - 1) * k < |data|
    ensures |Chunks(data, k)| == 0 <==> |data| == 0
  {
    var c := |Chunks(data, k)|;
    ChunkAt(data, k, c);
    if c > 0 {
      ChunkAt(data, k, c - 1);
    } else {
      ChunkAt(data, k, 0);
    }
  }

  /**
   * `floor(len(data) / k)` of the groups are full: all of them when `k`
   * divides the length, all but the last otherwise.
   */
  lemma ChunkFullCount<T>(data: seq<T>, k: nat)
    requires k > 0
    ensures |Chunks(data, k)| == |data| / k + (if |data| % k == 0 then 0 else 1)
  {
    ChunkCount(data, k);
    CeilQuotient(|data|, k, |Chunks(data, k)|);
  }

  /** The fewest groups of `k` that cover `n` items number `ceil(n / k)`. */
  lemma CeilQuotient(n: nat, k: nat, c: nat)
    requires k > 0
    requires n <= c * k
    requires c > 0 ==> (c - 1) * k < n
    requires c == 0 <==> n == 0
    ensures c == n / k + (if n % k == 0 then 0 else 1)
  {
    FullGroups(n, k);
    var q := n / k;
    assert q <= c by {
      if c < q {
        MulMonotone(c, q - 1, k);
      }
    }
    assert c <= q + 1 by {
      if c > q + 1 {
        MulMonotone(q + 1, c - 1, k);
      }
    }
  }

  // ======================================================== in-flight regrouping

  /**
   * The first `t` in-flight groups: group `i` is `all[i*k:(i+1)*k]` with
   * quality-control conversation `i % len(qc)` appended.
   */
  function InFlightGroupsUpTo<T>(all: seq<T>, k: nat, qc: seq<T>, t: nat): seq<seq<T>>
    requires k > 0 && |qc| > 0 && t * k <= |all|
    decreases t
  {
    if t == 0 then []
    else
      MulMonotone(t - 1, t, k);
      InFlightGroupsUpTo(all, k, qc, t - 1) + [all[(t - 1) * k..(t - 1) * k + k] + [qc[(t - 1) % |qc|]]]
  }

  /** The in-flight regrouping: `floor(len(all) / k)` groups, the remainder dropped. */
  function InFlightGroups<T>(all: seq<T>, k: nat, qc: seq<T>): (units: seq<seq<T>>)
    requires k > 0 && |qc| > 0
    ensures |units| == |all| / k
    ensures |all| < k <==> units == []
  {
    FullGroups(|all|, k);
    InFlightGroupsLength(all, k, qc, |all| / k);
    InFlightGroupsUpTo(all, k, qc, |all| / k)
  }

  lemma {:induction false} InFlightGroupAt<T>(all: seq<T>, k: nat, qc: seq<T>, t: nat, j: nat)
    requires k > 0 && |qc| > 0 && t * k <= |all| && j < t
    ensures |InFlightGroupsUpTo(all, k, qc, t)| == t
    ensures j * k + k <= |all|
    ensures InFlightGroupsUpTo(all, k, qc, t)[j] == all[j * k..j * k + k] + [qc[j % |qc|]]
    decreases t
  {
    MulMonotone(j + 1, t, k);
    MulMonotone(t - 1, t, k);
    if j < t - 1 {
      InFlightGroupAt(all, k, qc, t - 1, j);
    } else {
      InFlightGroupsLength(all, k, qc, t - 1);
    }
  }

  lemma {:induction false} InFlightGroupsLength<T>(all: seq<T>, k: nat, qc: seq<T>, t: nat)
    requires k > 0 && |qc| > 0 && t * k <= |all|
    ensures |InFlightGroupsUpTo(all, k, qc, t)| == t
    decreases t
  {
    if t > 0 {
      MulMonotone(t - 1, t, k);
      InFlightGroupsLength(all, k, qc, t - 1);
    }
  }

  /**
   * The in-flight units: `floor(len(all) / k)` of them, each of `k + 1`
   * conversations; unit `j` is the `j`-th plain group, which is full, with
   * quality-control conversation `j % len(qc)` last; and exactly the last
   * plain group is dropped when it is not full.
   */
  lemma InFlightGroupsShape<T>(all: seq<T>, k: nat, qc: seq<T>)
    requires k > 0 && |qc| > 0
    ensures |InFlightGroups(all, k, qc)| == |all| / k
    ensures forall j :: 0 <= j < |InFlightGroups(all, k, qc)| ==>
      |InFlightGroups(all, k, qc)[j]| == k + 1
      && j < |Chunks(all, k)|
      && InFlightGroups(all, k, qc)[j][..k] == Chunks(all, k)[j]
      && InFlightGroups(all, k, qc)[j][k] == qc[j % |qc|]
    ensures |Chunks(all, k)| == |InFlightGroups(all, k, qc)| + (if |all| % k == 0 then 0 else 1)
  {
    var q := |all| / k;
    var gs := InFlightGroups(all, k, qc);
    InFlightGroupsLength(all, k, qc, q);
    forall j | 0 <= j < |gs|
      ensures |gs[j]| == k + 1 && j < |Chunks(all, k)| && gs[j][..k] == Chunks(all, k)[j] && gs[j][k] == qc[j % |qc|]
    {
      InFlightGroupAt(all, k, qc, q, j);
      ChunkAt(all, k, j);
    }
    ChunkFullCount(all, k);
  }

  // ======================================================== blueprints

  /** The outcome of the in-flight regrouping: the units and the new `subtasks_per_unit`. */
  datatype Regrouped<T> = Regrouped(groups: seq<seq<T>>, subtasksPerUnit: nat)

  /**
   * `TurnAnnotationsStaticBlueprint` after construction: `subtasksPerUnit`
   * conversations per unit, `initializationDataDicts` the units.
   */
  class TurnAnnotationsStaticBlueprint {
    var subtasksPerUnit: int
    var initializationDataDicts: seq<seq<Dialogue>>

    constructor (subtasks: int, dataDicts: seq<RawDialogue>)
      requires subtasks > 0
      ensures subtasksPerUnit == subtasks
      ensures initializationDataDicts == Chunks(ProcessedData(dataDicts), subtasks)
    {
      subtasksPerUnit := subtasks;
      var processed := ProcessData(dataDicts);
      var grouped := ChunkData(processed, subtasks);
      initializationDataDicts := grouped;
    }

    /** Construction, which raises when `subtasks_per_unit` is not positive. */
    static method Create(subtasks: int, dataDicts: seq<RawDialogue>)
      returns (r: Result<TurnAnnotationsStaticBlueprint, BlueprintError>)
      ensures r.Failure? <==> subtasks <= 0
      ensures r.Failure? ==> r.error == NonPositiveSubtasks(subtasks)
      ensures r.Success? ==> r.value.subtasksPerUnit == subtasks
      ensures r.Success? ==> r.value.initializationDataDicts == Chunks(ProcessedData(dataDicts), subtasks)
    {
      if subtasks <= 0 {
        return Failure(NonPositiveSubtasks(subtasks));
      }
      var blueprint := new TurnAnnotationsStaticBlueprint(subtasks, dataDicts);
      r := Success(blueprint);
    }

    /** `process_data`: each conversation's pairs flattened, persona texts dropped. */
    static method ProcessData(dataDicts: seq<RawDialogue>) returns (output: seq<Dialogue>)
      ensures output == ProcessedData(dataDicts)
    {
      output := [];
      for j := 0 to |dataDicts|
        invariant output == MapUpTo(dataDicts, j, ProcessedDialogue)
      {
        var d := dataDicts[j];
        var newDialogue: Dialogue := [];
        for i := 0 to |d.dialog|
          invariant newDialogue == ProcessedDialogueUpTo(d.dialog, i)
        {
          var utt := d.dialog[i];
          if !Contains(utt.first, PERSONA) {
            newDialogue := newDialogue + [Utterance(utt.first, 0)];
          }
          if !Contains(utt.second, PERSONA) {
            newDialogue := newDialogue + [Utterance(utt.second, 1)];
          }
        }
        output := output + [newDialogue];
      }
    }

    /** The grouping loop of the constructor: slices of `k` starting at `0, k, 2k, ...`. */
    static method ChunkData<T>(data: seq<T>, k: nat) returns (grouped: seq<seq<T>>)
      requires k > 0
      ensures grouped == Chunks(data, k)
    {
      grouped := [];
      var i := 0;
      while i < |data|
        invariant grouped + ChunksFrom(data, k, i) == Chunks(data, k)
        decreases |data| - i
      {
        var chunk := data[i..Min(i + k, |data|)];
        grouped := grouped + [chunk];
        i := i + k;
      }
    }
  }

  /**
   * `TurnAnnotationsStaticInFlightQABlueprint` after construction: the plain
   * blueprint's units regrouped into full units, each ending with a
   * quality-control conversation, and `subtasksPerUnit` raised by one.
   */
  class TurnAnnotationsStaticInFlightQABlueprint {
    var subtasksPerUnit: int
    var initializationDataDicts: seq<seq<Dialogue>>
    var qualityControlConvos: seq<Dialogue>

    constructor (subtasks: int, dataDicts: seq<RawDialogue>, rawQcConvos: seq<RawDialogue>)
      requires subtasks > 0 && |dataDicts| >= subtasks && |rawQcConvos| > 0
      ensures qualityControlConvos == ProcessedData(rawQcConvos)
      ensures initializationDataDicts == InFlightGroups(ProcessedData(dataDicts), subtasks, qualityControlConvos)
      ensures subtasksPerUnit == subtasks + 1
    {
      // the plain blueprint's construction
      subtasksPerUnit := subtasks;
      var processed := TurnAnnotationsStaticBlueprint.ProcessData(dataDicts);
      var grouped := TurnAnnotationsStaticBlueprint.ChunkData(processed, subtasks);
      initializationDataDicts := grouped;
      var qcConvos := TurnAnnotationsStaticBlueprint.ProcessData(rawQcConvos);
      qualityControlConvos := qcConvos;
      new;
      ProcessedDataAt(rawQcConvos, 0);
      ProcessedDataAt(dataDicts, 0);
      var allData := FlattenGroups(initializationDataDicts);
      FlattenChunks(processed, subtasks);
      var r := Regroup(allData, subtasks, qualityControlConvos);
      initializationDataDicts := r.value.groups;
      subtasksPerUnit := r.value.subtasksPerUnit;
    }

    /**
     * Construction, which raises when `subtasks_per_unit` is not positive,
     * when there are fewer conversations than one unit holds, and when there
     * is no quality-control conversation to append.
     */
    static method Create(subtasks: int, dataDicts: seq<RawDialogue>, rawQcConvos: seq<RawDialogue>)
      returns (r: Result<TurnAnnotationsStaticInFlightQABlueprint, BlueprintError>)
      ensures r.Failure? <==> subtasks <= 0 || |dataDicts| < subtasks || |rawQcConvos| == 0
      ensures subtasks <= 0 ==> r == Failure(NonPositiveSubtasks(subtasks))
      ensures subtasks > 0 && |dataDicts| < subtasks ==> r == Failure(NoCompleteGroup)
      ensures subtasks > 0 && |dataDicts| >= subtasks && |rawQcConvos| == 0 ==> r == Failure(NoQualityControl)
      ensures r.Success? ==> r.value.qualityControlConvos == ProcessedData(rawQcConvos)
      ensures r.Success? ==> r.value.initializationDataDicts == InFlightGroups(ProcessedData(dataDicts), subtasks, ProcessedData(rawQcConvos))
      ensures r.Success? ==> r.value.subtasksPerUnit == subtasks + 1
    {
      if subtasks <= 0 {
        return Failure(NonPositiveSubtasks(subtasks));
      } else if |dataDicts| < subtasks {
        return Failure(NoCompleteGroup);
      } else if |rawQcConvos| == 0 {
        return Failure(NoQualityControl);
      }
      var blueprint := new TurnAnnotationsStaticInFlightQABlueprint(subtasks, dataDicts, rawQcConvos);
      r := Success(blueprint);
    }

    /** The loop that concatenates the plain blueprint's units into `all_data`. */
    static method FlattenGroups<T>(groups: seq<seq<T>>) returns (allData: seq<T>)
      ensures allData == Flatten(groups)
    {
      allData := [];
      for j := 0 to |groups|
        invariant allData == Flatten(groups[..j])
      {
        FlattenAppend(groups[..j], [groups[j]]);
        assert groups[..j + 1] == groups[..j] + [groups[j]];
        allData := allData + groups[j];
      }
      assert groups[..|groups|] == groups;
    }

    /**
     * The regrouping loop: `floor(len(allData) / k)` units, unit `i` the
     * slice `allData[i*k:(i+1)*k]` with quality-control conversation
     * `i % len(qc)` appended; the new `subtasks_per_unit` is the length of
     * the last unit. With no complete unit `chunk` is never bound; with
     * units to build and no quality-control conversation the modulo fails.
     */
    static method Regroup<T>(allData: seq<T>, k: nat, qc: seq<T>) returns (r: Result<Regrouped<T>, BlueprintError>)
      requires k > 0
      ensures r.Failure? <==> |allData| < k || |qc| == 0
      ensures r.Failure? ==> r.error == (if |allData| < k then NoCompleteGroup else NoQualityControl)
      ensures r.Success? ==> r.value.groups == InFlightGroups(allData, k, qc)
      ensures r.Success? ==> r.value.subtasksPerUnit == k + 1
    {
      var groupedData: seq<seq<T>> := [];
      var numberOfTasks := |allData| / k;
      FullGroups(|allData|, k);
      var chunk: Option<seq<T>> := None; // unbound until the first unit is built
      for i := 0 to numberOfTasks
        invariant i * k <= |allData|
        invariant i > 0 ==> |qc| > 0
        invariant |qc| > 0 ==> groupedData == InFlightGroupsUpTo(allData, k, qc, i)
        invariant chunk.Some? <==> i > 0
        invariant chunk.Some? ==> |chunk.value| == k + 1
      {
        MulMonotone(i + 1, numberOfTasks, k);
        assert (i + 1) * k == i * k + k;
        var dataIndex := i * k;
        var c := allData[dataIndex..dataIndex + k];
        if |qc| == 0 {
          return Failure(NoQualityControl);
        }
        var qcConvoIdx := i % |qc|;
        c := c + [qc[qcConvoIdx]];
        groupedData := groupedData + [c];
        chunk := Some(c);
      }
      if chunk.None? {
        return Failure(NoCompleteGroup);
      }
      r := Success(Regrouped(groupedData, |chunk.value|));
    }
  }
}
