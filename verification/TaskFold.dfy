/** What one streamed event does to a task, and what a run of them adds up to
    (`apply_event_to_task`, a2a-server/src/handler.rs). */
module TaskFold {
  import opened Wrappers
  import opened Types

  /** `save_task` gives a status without a timestamp the current time. */
  function Stamped(task: Task, now: Timestamp): Task {
    task.(status := task.status.(timestamp := Some(task.status.timestamp.UnwrapOr(now))))
  }

  /** `backfill_status_timestamp`: the same, on an event that carries a status. */
  function Backfilled(event: StreamResponse, now: Timestamp): StreamResponse {
    match event
    case TaskEvent(task) => TaskEvent(Stamped(task, now))
    case StatusEvent(update) =>
      StatusEvent(update.(status := update.status.(timestamp := Some(update.status.timestamp.UnwrapOr(now)))))
    case _ => event
  }

  predicate IsStamped(task: Task) {
    task.status.timestamp.Some?
  }

  /** The event carries no status without a timestamp. */
  predicate EventStamped(event: StreamResponse) {
    match event
    case TaskEvent(task) => IsStamped(task)
    case StatusEvent(update) => update.status.timestamp.Some?
    case _ => true
  }

  // ---------------------------------------------------------------------
  // Artifacts
  // ---------------------------------------------------------------------

  /** Position of the first artifact with this id, |artifacts| when there is none. */
  function IndexOf(artifacts: seq<Artifact>, id: ArtifactId): (i: nat)
    ensures i <= |artifacts|
    ensures i < |artifacts| ==> artifacts[i].artifactId == id
    ensures forall j :: 0 <= j < i ==> artifacts[j].artifactId != id
  {
    if artifacts == [] || artifacts[0].artifactId == id then 0
    else 1 + IndexOf(artifacts[1..], id)
  }

  function Entry(metadata: Option<Metadata>, key: string): Option<Json> {
    if metadata.Some? && key in metadata.value then Some(metadata.value[key]) else None
  }

  /** The later entry of a key wins. */
  function MergedMetadata(existing: Option<Metadata>, extra: Option<Metadata>): (merged: Option<Metadata>)
    ensures merged.None? <==> existing.None? && extra.None?
    ensures forall key :: Entry(merged, key) == if Entry(extra, key).Some? then Entry(extra, key) else Entry(existing, key)
  {
    if extra.None? then existing else Some(existing.UnwrapOr(map[]) + extra.value)
  }

  /** An appended chunk adds its parts and metadata and nothing else. */
  function Extended(artifact: Artifact, chunk: Artifact): Artifact {
    artifact.(parts := artifact.parts + chunk.parts,
              metadata := MergedMetadata(artifact.metadata, chunk.metadata))
  }

  /** The artifact list after one update; None when the update is refused. */
  function UpdatedArtifacts(artifacts: seq<Artifact>, update: ArtifactUpdate): Option<seq<Artifact>> {
    var i := IndexOf(artifacts, update.artifact.artifactId);
    if update.append.UnwrapOr(false) then
      if i == |artifacts| then None
      else Some(artifacts[i := Extended(artifacts[i], update.artifact)])
    else if i < |artifacts| then Some(artifacts[i := update.artifact])
    else Some(artifacts + [update.artifact])
  }

  function AllUpdated(artifacts: seq<Artifact>, updates: seq<ArtifactUpdate>): Option<seq<Artifact>> {
    if updates == [] then Some(artifacts)
    else
      match AllUpdated(artifacts, updates[..|updates| - 1])
      case None => None
      case Some(before) => UpdatedArtifacts(before, updates[|updates| - 1])
  }

  // ---------------------------------------------------------------------
  // Artifacts as a map from id to content, with the order of first appearance
  // ---------------------------------------------------------------------

  datatype Assembly = Assembly(order: seq<ArtifactId>, content: map<ArtifactId, Artifact>)

  /** The list holds each artifact of the assembly exactly once, in its order. */
  ghost predicate Represents(artifacts: seq<Artifact>, assembly: Assembly) {
    && |assembly.order| == |artifacts|
    && (forall i, j :: 0 <= i < j < |artifacts| ==> artifacts[i].artifactId != artifacts[j].artifactId)
    && (forall i :: 0 <= i < |artifacts| ==>
          && assembly.order[i] == artifacts[i].artifactId
          && assembly.order[i] in assembly.content
          && assembly.content[assembly.order[i]] == artifacts[i])
    && (forall id :: id in assembly.content ==> id in assembly.order)
  }

  function Assembled(assembly: Assembly, update: ArtifactUpdate): Option<Assembly> {
    var id := update.artifact.artifactId;
    if update.append == Some(true) then
      if id !in assembly.content then None
      else Some(assembly.(content := assembly.content[id := Extended(assembly.content[id], update.artifact)]))
    else
      Some(Assembly(if id in assembly.content then assembly.order else assembly.order + [id],
                    assembly.content[id := update.artifact]))
  }

  function AllAssembled(assembly: Assembly, updates: seq<ArtifactUpdate>): Option<Assembly> {
    if updates == [] then Some(assembly)
    else
      match AllAssembled(assembly, updates[..|updates| - 1])
      case None => None
      case Some(before) => Assembled(before, updates[|updates| - 1])
  }

  /** One update of the list is one update of the map it stands for: same
      refusals, same contents, same order, and ids stay unique. */
  lemma UpdateRefinesMap(artifacts: seq<Artifact>, assembly: Assembly, update: ArtifactUpdate)
    requires Represents(artifacts, assembly)
    ensures match UpdatedArtifacts(artifacts, update)
            case None => Assembled(assembly, update) == None
            case Some(after) => Assembled(assembly, update).Some? && Represents(after, Assembled(assembly, update).value)
  {
    var id := update.artifact.artifactId;
    var i := IndexOf(artifacts, id);
    if i < |artifacts| {
      assert assembly.order[i] == id;
    } else {
      assert id !in assembly.order;
    }
  }

  /** Over any sequence of updates the list refines the map. */
  lemma {:induction false} UpdatesRefineMap(artifacts: seq<Artifact>, assembly: Assembly, updates: seq<ArtifactUpdate>)
    requires Represents(artifacts, assembly)
    ensures match AllUpdated(artifacts, updates)
            case None => AllAssembled(assembly, updates) == None
            case Some(after) =>
              AllAssembled(assembly, updates).Some? && Represents(after, AllAssembled(assembly, updates).value)
  {
    if updates != [] {
      var before := updates[..|updates| - 1];
      UpdatesRefineMap(artifacts, assembly, before);
      if AllUpdated(artifacts, before).Some? {
        UpdateRefinesMap(AllUpdated(artifacts, before).value, AllAssembled(assembly, before).value, updates[|updates| - 1]);
      }
    }
  }

  /** The position after the last update that starts the artifact `id` afresh
      rather than appending to it; 0 when there is none. */
  function LastReplaced(updates: seq<ArtifactUpdate>, id: ArtifactId): (n: nat)
    ensures n <= |updates|
    ensures n > 0 ==> updates[n - 1].artifact.artifactId == id && updates[n - 1].append != Some(true)
    ensures forall k :: n <= k < |updates| && updates[k].artifact.artifactId == id ==> updates[k].append == Some(true)
  {
    if updates == [] then 0
    else
      var last := updates[|updates| - 1];
      if last.artifact.artifactId == id && last.append != Some(true) then |updates|
      else LastReplaced(updates[..|updates| - 1], id)
  }

  /** The parts all updates to `id` carry, in order. */
  function PartsSent(updates: seq<ArtifactUpdate>, id: ArtifactId): seq<Part> {
    if updates == [] then []
    else
      var last := updates[|updates| - 1];
      PartsSent(updates[..|updates| - 1], id) + if last.artifact.artifactId == id then last.artifact.parts else []
  }

  /** The metadata all updates to `id` carry, later entries of a key over earlier. */
  function MetadataSent(updates: seq<ArtifactUpdate>, id: ArtifactId): Option<Metadata> {
    if updates == [] then None
    else
      var before, last := MetadataSent(updates[..|updates| - 1], id), updates[|updates| - 1];
      if last.artifact.artifactId == id then MergedMetadata(before, last.artifact.metadata) else before
  }

  /** What one more update adds to the parts and metadata sent from position n on. */
  lemma SentSnoc(updates: seq<ArtifactUpdate>, last: ArtifactUpdate, n: nat, id: ArtifactId)
    requires n <= |updates|
    ensures PartsSent((updates + [last])[n..], id)
         == PartsSent(updates[n..], id) + if last.artifact.artifactId == id then last.artifact.parts else []
    ensures MetadataSent((updates + [last])[n..], id)
         == if last.artifact.artifactId == id then MergedMetadata(MetadataSent(updates[n..], id), last.artifact.metadata)
            else MetadataSent(updates[n..], id)
  {
    var tail := (updates + [last])[n..];
    assert tail == updates[n..] + [last];
    assert tail[..|tail| - 1] == updates[n..];
  }

  lemma LastReplacedSnoc(updates: seq<ArtifactUpdate>, last: ArtifactUpdate, id: ArtifactId)
    ensures LastReplaced(updates + [last], id)
         == if last.artifact.artifactId == id && last.append != Some(true) then |updates| + 1
            else LastReplaced(updates, id)
  {
    assert (updates + [last])[..|updates|] == updates;
  }

  /** What one update does to the contents. */
  lemma AssembledContent(assembly: Assembly, update: ArtifactUpdate, id: ArtifactId)
    requires Assembled(assembly, update).Some?
    ensures var before, after := assembly.content, Assembled(assembly, update).value.content;
            if update.artifact.artifactId != id then
              (id in after <==> id in before) && (id in before ==> after[id] == before[id])
            else
              && id in after
              && if update.append == Some(true)
                 then && id in before
                      && after[id] == before[id].(
                           parts := before[id].parts + update.artifact.parts,
                           metadata := MergedMetadata(before[id].metadata, update.artifact.metadata))
                 else after[id] == update.artifact
  {
  }

  /** What the updates send of an artifact: what its last non-append update sent,
      but for the parts and metadata: the parts of that update and of every append
      after it, in order, and their metadata, the latest entry of a key winning. */
  function ArtifactSent(updates: seq<ArtifactUpdate>, id: ArtifactId): Option<Artifact> {
    var n := LastReplaced(updates, id);
    if n == 0 then None
    else Some(updates[n - 1].artifact.(
      parts := PartsSent(updates[n - 1..], id), metadata := MetadataSent(updates[n - 1..], id)))
  }

  lemma NothingMerged(metadata: Option<Metadata>)
    ensures MergedMetadata(None, metadata) == metadata
  {
    if metadata.Some? { assert map[] + metadata.value == metadata.value; }
  }

  lemma ArtifactSentSnoc(updates: seq<ArtifactUpdate>, last: ArtifactUpdate, id: ArtifactId)
    ensures ArtifactSent(updates + [last], id)
         == if last.artifact.artifactId != id then ArtifactSent(updates, id)
            else if last.append != Some(true) then Some(last.artifact)
            else if ArtifactSent(updates, id).None? then None
            else Some(ArtifactSent(updates, id).value.(
                   parts := ArtifactSent(updates, id).value.parts + last.artifact.parts,
                   metadata := MergedMetadata(ArtifactSent(updates, id).value.metadata, last.artifact.metadata)))
  {
    LastReplacedSnoc(updates, last, id);
    var n := LastReplaced(updates + [last], id);
    if n == |updates| + 1 {
      SentSnoc(updates, last, |updates|, id);
      assert updates[|updates|..] == [] && [] + last.artifact.parts == last.artifact.parts;
      NothingMerged(last.artifact.metadata);
    } else if n > 0 {
      SentSnoc(updates, last, n - 1, id);
      assert (updates + [last])[n - 1] == updates[n - 1];
      assert PartsSent(updates[n - 1..], id) + [] == PartsSent(updates[n - 1..], id);
    }
  }

  /** An assembled artifact is what the updates sent of it, and is there exactly
      when some update started it. */
  lemma {:induction false} AssembledParts(updates: seq<ArtifactUpdate>, id: ArtifactId)
    requires AllAssembled(Assembly([], map[]), updates).Some?
    ensures var content := AllAssembled(Assembly([], map[]), updates).value.content;
            && (id in content <==> LastReplaced(updates, id) > 0)
            && (id in content ==> ArtifactSent(updates, id) == Some(content[id]))
  {
    if updates != [] {
      var before, last := updates[..|updates| - 1], updates[|updates| - 1];
      assert updates == before + [last];
      AssembledParts(before, id);
      AssembledContent(AllAssembled(Assembly([], map[]), before).value, last, id);
      ArtifactSentSnoc(before, last, id);
    }
  }

  // ---------------------------------------------------------------------
  // Tasks
  // ---------------------------------------------------------------------

  /** The task after one event; None when the event is refused. A message
      changes nothing. */
  function Applied(task: Task, event: StreamResponse): Option<Task> {
    match event
    case TaskEvent(snapshot) => Some(snapshot)
    case StatusEvent(update) => Some(task.(status := update.status))
    case ArtifactEvent(update) =>
      (match UpdatedArtifacts(task.artifacts.UnwrapOr([]), update)
       case None => None
       case Some(artifacts) => Some(task.(artifacts := Some(artifacts))))
    case MessageEvent(_) => Some(task)
  }

  /** The events applied in order; None from the first refused one on. */
  function Folded(task: Task, events: seq<StreamResponse>): Option<Task> {
    if events == [] then Some(task)
    else
      match Folded(task, events[..|events| - 1])
      case None => None
      case Some(before) => Applied(before, events[|events| - 1])
  }

  lemma FoldedSnoc(task: Task, events: seq<StreamResponse>, event: StreamResponse)
    ensures Folded(task, events + [event])
         == if Folded(task, events).None? then None else Applied(Folded(task, events).value, event)
  {
    assert (events + [event])[..|events|] == events;
  }

  /** Folding in two stretches is folding once. */
  lemma {:induction false} FoldedConcat(task: Task, first: seq<StreamResponse>, second: seq<StreamResponse>)
    ensures Folded(task, first + second)
         == if Folded(task, first).None? then None else Folded(Folded(task, first).value, second)
  {
    if second == [] {
      assert first + second == first;
    } else {
      var init := second[..|second| - 1];
      FoldedConcat(task, first, init);
      FoldedSnoc(task, first + init, second[|second| - 1]);
      assert first + second == first + init + [second[|second| - 1]];
    }
  }

  /** The artifact updates among the events, in order. */
  function ArtifactUpdatesIn(events: seq<StreamResponse>): seq<ArtifactUpdate> {
    if events == [] then []
    else
      var before, last := ArtifactUpdatesIn(events[..|events| - 1]), events[|events| - 1];
      if last.ArtifactEvent? then before + [last.artifact] else before
  }

  /** The status of the last status update, `before` when there is none. */
  function LastStatus(events: seq<StreamResponse>, before: TaskStatus): TaskStatus {
    if events == [] then before
    else if events[|events| - 1].StatusEvent? then events[|events| - 1].status.status
    else LastStatus(events[..|events| - 1], before)
  }

  /** The artifacts that the updates, if there are any, make of the first ones. */
  function ArtifactsAfter(artifacts: Option<seq<Artifact>>, updates: seq<ArtifactUpdate>): Option<Option<seq<Artifact>>> {
    if updates == [] then Some(artifacts)
    else
      match AllUpdated(artifacts.UnwrapOr([]), updates)
      case None => None
      case Some(updated) => Some(Some(updated))
  }

  lemma ArtifactsAfterSnoc(artifacts: Option<seq<Artifact>>, updates: seq<ArtifactUpdate>, last: ArtifactUpdate)
    ensures ArtifactsAfter(artifacts, updates + [last])
         == match ArtifactsAfter(artifacts, updates)
            case None => None
            case Some(before) =>
              match UpdatedArtifacts(before.UnwrapOr([]), last)
              case None => None
              case Some(updated) => Some(Some(updated))
  {
    assert (updates + [last])[..|updates|] == updates;
    if updates == [] { assert AllUpdated(artifacts.UnwrapOr([]), []) == Some(artifacts.UnwrapOr([])); }
  }

  /** Exactly what any mixture of status updates, artifact updates and messages
      makes of a task: the artifacts that its artifact updates make of the first
      ones, the status of its last status update, and everything else as it was.
      It is refused exactly when one of its artifact updates is. */
  lemma {:induction false} FoldedExactly(task: Task, events: seq<StreamResponse>)
    requires forall k :: 0 <= k < |events| ==> !events[k].TaskEvent?
    ensures match ArtifactsAfter(task.artifacts, ArtifactUpdatesIn(events))
            case None => Folded(task, events) == None
            case Some(artifacts) =>
              Folded(task, events)
              == Some(Task(task.id, task.contextId, LastStatus(events, task.status), artifacts, task.history, task.metadata))
  {
    if events != [] {
      var before, last := events[..|events| - 1], events[|events| - 1];
      FoldedExactly(task, before);
      if last.ArtifactEvent? { ArtifactsAfterSnoc(task.artifacts, ArtifactUpdatesIn(before), last.artifact); }
    }
  }

  /** A snapshot starts the task afresh, whatever came before it. */
  lemma SnapshotStartsAfresh(task: Task, before: seq<StreamResponse>, snapshot: Task, events: seq<StreamResponse>)
    requires Folded(task, before).Some?
    ensures Folded(task, before + [TaskEvent(snapshot)] + events) == Folded(snapshot, events)
  {
    FoldedSnoc(task, before, TaskEvent(snapshot));
    FoldedConcat(task, before + [TaskEvent(snapshot)], events);
  }

  function AsEvents(updates: seq<ArtifactUpdate>): seq<StreamResponse> {
    seq(|updates|, k requires 0 <= k < |updates| => ArtifactEvent(updates[k]))
  }

  /** A run of artifact events assembles the task's artifacts and changes nothing
      else; it is refused exactly when an update is. */
  lemma {:induction false} FoldAssembles(task: Task, updates: seq<ArtifactUpdate>)
    requires updates != []
    ensures Folded(task, AsEvents(updates))
         == match AllUpdated(task.artifacts.UnwrapOr([]), updates)
            case None => None
            case Some(artifacts) => Some(task.(artifacts := Some(artifacts)))
  {
    var before, last := updates[..|updates| - 1], updates[|updates| - 1];
    assert AsEvents(updates) == AsEvents(before) + [ArtifactEvent(last)];
    FoldedSnoc(task, AsEvents(before), ArtifactEvent(last));
    if before != [] { FoldAssembles(task, before); }
  }

  /** A stamped task stays stamped under stamped events, so a save in between
      changes nothing. */
  lemma AppliedKeepsStamp(task: Task, event: StreamResponse)
    requires IsStamped(task) && EventStamped(event) && Applied(task, event).Some?
    ensures IsStamped(Applied(task, event).value)
    ensures forall now: Timestamp :: Stamped(Applied(task, event).value, now) == Applied(task, event).value
  {
  }

  /** A missing timestamp becomes the current time, and nothing else changes. */
  lemma StampIsNow(task: Task, now: Timestamp)
    ensures var stamped := Stamped(task, now);
            && stamped.status.timestamp == (if IsStamped(task) then task.status.timestamp else Some(now))
            && stamped.(status := task.status) == task
            && stamped.status.state == task.status.state && stamped.status.message == task.status.message
  {
  }

  lemma BackfilledIsStamped(event: StreamResponse, now: Timestamp)
    ensures match event
            case TaskEvent(task) => Backfilled(event, now) == TaskEvent(Stamped(task, now))
            case StatusEvent(update) =>
              && Backfilled(event, now).StatusEvent?
              && Backfilled(event, now).status.(status := update.status) == update
              && Backfilled(event, now).status.status.(timestamp := update.status.timestamp) == update.status
              && (update.status.timestamp.None? ==> Backfilled(event, now).status.status.timestamp == Some(now))
            case _ => Backfilled(event, now) == event
    ensures EventStamped(Backfilled(event, now))
    ensures IsTerminalEvent(Backfilled(event, now)) == IsTerminalEvent(event)
    ensures EventStamped(event) ==> Backfilled(event, now) == event
  {
  }
}
