/** The replicated key-value state machine: commands, expiry, snapshots and cleanup. */
module Fsm {
  import opened Common
  import opened Joining

  type Data = map<string, Entry>

  /** expiresAt is in Unix seconds, positive if the entry expires. Clock readings are nanoseconds. */
  datatype Entry = Entry(value: Bytes, expiresAt: int, createdAt: int, updatedAt: int)

  datatype Command = Command(op: string, key: string, value: Bytes, expiresAt: int)

  datatype MetadataCommand = MetadataCommand(op: string, bucket: string, key: string, value: Bytes)

  /** A log payload, as what decoding it into each of the four command shapes yields. */
  datatype Payload = Payload(
    metaBatch: Option<seq<MetadataCommand>>, meta: Option<MetadataCommand>,
    batch: Option<seq<Command>>, single: Option<Command>)

  const NANOS := 1_000_000_000

  /** time.Unix(expiresAt, 0).Before(now) for an entry that expires. */
  predicate Past(expiresAt: int, now: int) {
    expiresAt > 0 && expiresAt * NANOS < now
  }

  // ---- One primitive command at one clock reading ----

  function ApplySet(data: Data, key: string, value: Bytes, expiresAt: int, now: int): Data {
    if Past(expiresAt, now) then data
    else data[key := Entry(value, expiresAt, if key in data then data[key].createdAt else now, now)]
  }

  function ApplyCommand(data: Data, cmd: Command, now: int): Data {
    if cmd.op == "set" then ApplySet(data, cmd.key, cmd.value, cmd.expiresAt, now)
    else if cmd.op == "delete" then data - {cmd.key}
    else data
  }

  predicate Known(cmd: Command) {
    cmd.op == "set" || cmd.op == "delete"
  }

  /** A run of primitive commands, each with the clock reading it was applied at. */
  function Run(data: Data, log: seq<Command>, times: seq<int>): Data
    requires |times| == |log|
  {
    if log == [] then data
    else
      var last := |log| - 1;
      ApplyCommand(Run(data, log[..last], times[..last]), log[last], times[last])
  }

  // ---- What clients observe ----

  function Get(data: Data, key: string, now: int): Option<Bytes> {
    if key in data && !Past(data[key].expiresAt, now) then Some(data[key].value) else None
  }

  function GetAll(data: Data, now: int): map<string, Bytes> {
    map key | key in data && !Past(data[key].expiresAt, now) :: data[key].value
  }

  /** Metadata commands are sets without expiry and deletes on derived keys; any other
      operation stays unknown. */
  function AsCommand(m: MetadataCommand): Command {
    if m.op == "create_bucket" then Command("set", "bucket:" + m.bucket, m.value, 0)
    else if m.op == "delete_bucket" then Command("delete", "bucket:" + m.bucket, [], 0)
    else if m.op == "put_object_meta" then Command("set", "object:" + m.bucket + ":" + m.key, m.value, 0)
    else if m.op == "delete_object_meta" then Command("delete", "object:" + m.bucket + ":" + m.key, [], 0)
    else Command("", "", [], 0)
  }

  function AsCommands(ms: seq<MetadataCommand>): (cmds: seq<Command>)
    ensures |cmds| == |ms|
    ensures forall i :: 0 <= i < |ms| ==> cmds[i] == AsCommand(ms[i])
  {
    seq(|ms|, i requires 0 <= i < |ms| => AsCommand(ms[i]))
  }

  /** The primitive commands a payload amounts to, in the order Apply tries its shapes; None if
      no shape decodes. */
  function Flatten(p: Payload): Option<seq<Command>> {
    if p.metaBatch.Some? && |p.metaBatch.value| > 0 then Some(AsCommands(p.metaBatch.value))
    else if p.meta.Some? && p.meta.value.op != "" && p.meta.value.bucket != "" then Some([AsCommand(p.meta.value)])
    else if p.batch.Some? && |p.batch.value| > 0 then Some(p.batch.value)
    else if p.single.Some? then Some([p.single.value])
    else None
  }

  // ---- The machine itself ----

  class FSM {
    var data: Data

    constructor ()
      ensures data == map[]
    {
      data := map[];
    }

    method DoSet(key: string, value: Bytes, expiresAt: int, now: int)
      modifies this
      ensures data == ApplySet(old(data), key, value, expiresAt, now)
      ensures 0 < expiresAt && expiresAt * NANOS < now ==> data == old(data)
      ensures !(0 < expiresAt && expiresAt * NANOS < now) ==>
                && key in data && data[key].value == value && data[key].expiresAt == expiresAt && data[key].updatedAt == now
                && data[key].createdAt == (if key in old(data) then old(data)[key].createdAt else now)
      ensures forall k :: k != key ==> (k in data <==> k in old(data)) && (k in data ==> data[k] == old(data)[k])
    {
      if Past(expiresAt, now) {
        return;
      }
      var entry := Entry(value, expiresAt, now, now);
      if key in data {
        entry := entry.(createdAt := data[key].createdAt);
      }
      data := data[key := entry];
    }

    method DoDelete(key: string)
      modifies this
      ensures data == old(data) - {key}
    {
      if key in data {
        data := data - {key};
      }
    }

    /** ok is false for an unknown operation, which changes nothing. */
    method DoCommand(cmd: Command, now: int) returns (ok: bool)
      modifies this
      ensures data == ApplyCommand(old(data), cmd, now)
      ensures ok <==> Known(cmd)
    {
      if cmd.op == "set" {
        DoSet(cmd.key, cmd.value, cmd.expiresAt, now);
        ok := true;
      } else if cmd.op == "delete" {
        DoDelete(cmd.key);
        ok := true;
      } else {
        ok := false;
      }
    }

    /** A batch does what its commands do one by one, each at its own clock reading, and reports
        failure exactly if some command is unknown. */
    method DoBatch(cmds: seq<Command>, times: seq<int>) returns (ok: bool)
      requires |times| == |cmds|
      modifies this
      ensures data == Run(old(data), cmds, times)
      ensures ok <==> forall i :: 0 <= i < |cmds| ==> Known(cmds[i])
    {
      ok := true;
      for i := 0 to |cmds|
        invariant data == Run(old(data), cmds[..i], times[..i])
        invariant ok <==> forall j :: 0 <= j < i ==> Known(cmds[j])
      {
        var fine := DoCommand(cmds[i], times[i]);
        if !fine {
          ok := false;
        }
        assert cmds[..i + 1][..i] == cmds[..i] && times[..i + 1][..i] == times[..i];
      }
      assert cmds[..|cmds|] == cmds && times[..|cmds|] == times;
    }

    method DoMetadata(m: MetadataCommand, now: int) returns (ok: bool)
      modifies this
      ensures data == ApplyCommand(old(data), AsCommand(m), now)
      ensures ok <==> Known(AsCommand(m))
      ensures ok <==> m.op in {"create_bucket", "delete_bucket", "put_object_meta", "delete_object_meta"}
      ensures m.op == "create_bucket" ==> Stored(old(data), data, "bucket:" + m.bucket, m.value)
      ensures m.op == "delete_bucket" ==> Removed(old(data), data, "bucket:" + m.bucket)
      ensures m.op == "put_object_meta" ==> Stored(old(data), data, "object:" + m.bucket + ":" + m.key, m.value)
      ensures m.op == "delete_object_meta" ==> Removed(old(data), data, "object:" + m.bucket + ":" + m.key)
      ensures !ok ==> data == old(data)
    {
      if m.op == "create_bucket" {
        DoSet("bucket:" + m.bucket, m.value, 0, now);
        ok := true;
      } else if m.op == "delete_bucket" {
        DoDelete("bucket:" + m.bucket);
        ok := true;
      } else if m.op == "put_object_meta" {
        DoSet("object:" + m.bucket + ":" + m.key, m.value, 0, now);
        ok := true;
      } else if m.op == "delete_object_meta" {
        DoDelete("object:" + m.bucket + ":" + m.key);
        ok := true;
      } else {
        ok := false;
      }
    }

    method DoMetadataBatch(ms: seq<MetadataCommand>, times: seq<int>) returns (ok: bool)
      requires |times| == |ms|
      modifies this
      ensures data == Run(old(data), AsCommands(ms), times)
      ensures ok <==> forall i :: 0 <= i < |ms| ==> Known(AsCommand(ms[i]))
    {
      ok := true;
      ghost var cmds := AsCommands(ms);
      for i := 0 to |ms|
        invariant data == Run(old(data), cmds[..i], times[..i])
        invariant ok <==> forall j :: 0 <= j < i ==> Known(AsCommand(ms[j]))
      {
        var fine := DoMetadata(ms[i], times[i]);
        if !fine {
          ok := false;
        }
        assert cmds[..i + 1][..i] == cmds[..i] && times[..i + 1][..i] == times[..i];
      }
      assert cmds[..|cmds|] == cmds && times[..|cmds|] == times;
    }

    /** Apply: every payload, whatever its shape, acts as its flat list of commands. */
    method Apply(p: Payload, times: seq<int>) returns (ok: bool)
      requires Flatten(p).Some? ==> |times| == |Flatten(p).value|
      modifies this
      ensures Flatten(p).None? ==> data == old(data) && !ok
      ensures Flatten(p).Some? ==> data == Run(old(data), Flatten(p).value, times)
      ensures Flatten(p).Some? ==> (ok <==> forall i :: 0 <= i < |Flatten(p).value| ==> Known(Flatten(p).value[i]))
    {
      if p.metaBatch.Some? && |p.metaBatch.value| > 0 {
        ok := DoMetadataBatch(p.metaBatch.value, times);
      } else if p.meta.Some? && p.meta.value.op != "" && p.meta.value.bucket != "" {
        RunOne(data, AsCommand(p.meta.value), times);
        ok := DoMetadata(p.meta.value, times[0]);
      } else if p.batch.Some? && |p.batch.value| > 0 {
        ok := DoBatch(p.batch.value, times);
      } else if p.single.Some? {
        RunOne(data, p.single.value, times);
        ok := DoCommand(p.single.value, times[0]);
      } else {
        ok := false;
      }
    }

    method Lookup(key: string, now: int) returns (r: Option<Bytes>)
      ensures r == Get(data, key, now)
      ensures r.Some? <==> key in data && !(0 < data[key].expiresAt && data[key].expiresAt * NANOS < now)
      ensures r.Some? ==> r.value == data[key].value
    {
      if key !in data {
        return None;
      }
      if Past(data[key].expiresAt, now) {
        return None;
      }
      return Some(data[key].value);
    }

    /** GetAll walks the map in any order; it answers for every key as Get does. */
    method ReadAll(now: int) returns (all: map<string, Bytes>)
      ensures all == GetAll(data, now)
      ensures forall k :: k in all <==> Get(data, k, now).Some?
      ensures forall k :: k in all ==> Get(data, k, now) == Some(all[k])
    {
      all := map[];
      var keys := data.Keys;
      while keys != {}
        invariant keys <= data.Keys
        invariant all == map k | k in data && k !in keys && !Past(data[k].expiresAt, now) :: data[k].value
        decreases keys
      {
        var k :| k in keys;
        keys := keys - {k};
        if Past(data[k].expiresAt, now) {
          continue;
        }
        all := all[k := data[k].value];
      }
    }

    /** Snapshot copies the map entry by entry, in any order. */
    method Snapshot() returns (copy: Data)
      ensures copy == data
    {
      copy := map[];
      var keys := data.Keys;
      while keys != {}
        invariant keys <= data.Keys
        invariant copy.Keys == data.Keys - keys
        invariant forall k :: k in copy ==> copy[k] == data[k]
        decreases keys
      {
        var k :| k in keys;
        copy := copy[k := data[k]];
        keys := keys - {k};
      }
    }

    /** Restore replaces the data by the snapshot's unexpired entries. */
    method Restore(snapshot: Data, now: int)
      modifies this
      ensures data == Purge(snapshot, now)
      ensures forall k :: k in data <==>
                k in snapshot && !(0 < snapshot[k].expiresAt && snapshot[k].expiresAt * NANOS < now)
      ensures forall k :: k in data ==> data[k] == snapshot[k]
    {
      data := map[];
      var keys := snapshot.Keys;
      while keys != {}
        invariant keys <= snapshot.Keys
        invariant data == map k | k in snapshot && k !in keys && !Past(snapshot[k].expiresAt, now) :: snapshot[k]
        decreases keys
      {
        var k :| k in keys;
        keys := keys - {k};
        if Past(snapshot[k].expiresAt, now) {
          continue;
        }
        data := data[k := snapshot[k]];
      }
    }

    /** CleanupExpired deletes while iterating and counts what it removed. */
    method CleanupExpired(now: int) returns (removed: nat)
      modifies this
      ensures data == Purge(old(data), now)
      ensures forall k :: k in data <==>
                k in old(data) && !(0 < old(data)[k].expiresAt && old(data)[k].expiresAt * NANOS < now)
      ensures forall k :: k in data ==> data[k] == old(data)[k]
      ensures removed == |set k | k in old(data) && 0 < old(data)[k].expiresAt && old(data)[k].expiresAt * NANOS < now|
    {
      removed := 0;
      var keys := data.Keys;
      ghost var start := data;
      while keys != {}
        invariant keys <= data.Keys
        invariant data == map k | k in start && (k in keys || !Past(start[k].expiresAt, now)) :: start[k]
        invariant removed == |start| - |data|
        decreases keys
      {
        var k :| k in keys;
        keys := keys - {k};
        if Past(data[k].expiresAt, now) {
          assert |data.Keys - {k}| == |data.Keys| - 1;
          data := data - {k};
          removed := removed + 1;
        }
      }
      PurgedCount(start, now);
    }
  }

  /** A value without expiry is stored at one key, and no other key is touched. */
  ghost predicate Stored(was: Data, now: Data, key: string, value: Bytes) {
    && key in now && now[key].value == value && now[key].expiresAt == 0
    && now - {key} == was - {key}
  }

  ghost predicate Removed(was: Data, now: Data, key: string) {
    key !in now && now == was - {key}
  }

  lemma PurgedCount(data: Data, now: int)
    ensures |data| - |Purge(data, now)| ==
            |set k | k in data && 0 < data[k].expiresAt && data[k].expiresAt * NANOS < now|
  {
    var gone := set k | k in data && 0 < data[k].expiresAt && data[k].expiresAt * NANOS < now;
    SubsetSize(gone, data.Keys);
    assert Purge(data, now).Keys == data.Keys - gone;
  }

  // ---- Keys of buckets and objects ----

  /** Buckets have keys of their own. */
  lemma BucketKeys(a: string, b: string, rest: string)
    ensures "bucket:" + a == "bucket:" + b <==> a == b
    ensures "bucket:" + a != "object:" + rest
  {
    var x, y := "bucket:" + a, "bucket:" + b;
    assert a == x[7..] && b == y[7..];
    assert x[0] == 'b' && ("object:" + rest)[0] == 'o';
  }

  /** Two objects share a key exactly if they are the same, or a colon inside a name can be read as the one between
      bucket and object. */
  lemma ObjectKeysIff(b: string, k: string, c: string, l: string)
    ensures "object:" + b + ":" + k == "object:" + c + ":" + l <==>
            (b == c && k == l) || Shifted(b, k, c, l, ':') || Shifted(c, l, b, k, ':')
  {
    JoinSameIff(b, k, c, l, ':');
    var x, y := "object:" + b + ":" + k, "object:" + c + ":" + l;
    assert x[7..] == Join(b, ':', k) && y[7..] == Join(c, ':', l);
    assert x == "object:" + x[7..] && y == "object:" + y[7..];
  }

  /** The object "c" of bucket "a:b" and the object "b:c" of bucket "a" are one entry. */
  lemma ObjectsCollide()
    ensures AsCommand(MetadataCommand("put_object_meta", "a:b", "c", [1])).key
            == AsCommand(MetadataCommand("put_object_meta", "a", "b:c", [2])).key
  {
  }

  // ---- What the four encodings decode to ----

  /** JSON objects with the fields of one shape: the other shapes find only the fields they share. */
  function OfCommand(c: Command): Payload {
    Payload(Some([]), Some(MetadataCommand(c.op, "", c.key, c.value)), Some([]), Some(c))
  }

  function OfBatch(cs: seq<Command>): Payload {
    Payload(Some([]), Some(MetadataCommand("", "", "", [])), Some(cs), Some(Command("", "", [], 0)))
  }

  function OfMetadata(m: MetadataCommand): Payload {
    Payload(Some([]), Some(m), Some([]), Some(Command(m.op, m.key, m.value, 0)))
  }

  function OfMetadataBatch(ms: seq<MetadataCommand>): Payload {
    Payload(Some(ms), Some(MetadataCommand("", "", "", [])), Some([]), Some(Command("", "", [], 0)))
  }

  /** Each encoding is taken for what it is, exactly if it is not empty: an empty batch, or metadata without an
      operation or a bucket, is taken for a single command. */
  lemma ShapesRecognized(c: Command, cs: seq<Command>, m: MetadataCommand, ms: seq<MetadataCommand>)
    ensures Flatten(OfCommand(c)) == Some([c])
    ensures Flatten(OfBatch(cs)) == Some(if cs != [] then cs else [Command("", "", [], 0)])
    ensures Flatten(OfMetadataBatch(ms)) == Some(if ms != [] then AsCommands(ms) else [Command("", "", [], 0)])
    ensures Flatten(OfMetadata(m)) ==
            Some([if m.op != "" && m.bucket != "" then AsCommand(m) else Command(m.op, m.key, m.value, 0)])
  {
  }

  /** A payload with fields of several shapes is taken for the first of metadata batch, metadata command, batch and
      command that is not empty. */
  lemma ShapesInOrder(p: Payload)
    ensures p.metaBatch.Some? && p.metaBatch.value != [] ==> Flatten(p) == Some(AsCommands(p.metaBatch.value))
    ensures (p.metaBatch.None? || p.metaBatch.value == []) && p.meta.Some? && p.meta.value.op != "" && p.meta.value.bucket != ""
            ==> Flatten(p) == Some([AsCommand(p.meta.value)])
  {
  }

  // ---- Expiry ----

  /** An entry is there up to and including the instant it expires at, and gone right after it. */
  lemma ExpiryInstant(value: Bytes, expiresAt: int, now: int)
    requires 0 < expiresAt
    ensures Get(map["k" := Entry(value, expiresAt, 0, 0)], "k", now) ==
            if now <= expiresAt * 1_000_000_000 then Some(value) else None
  {
  }

  function Purge(data: Data, now: int): Data {
    map k | k in data && !Past(data[k].expiresAt, now) :: data[k]
  }

  lemma RunOne(data: Data, cmd: Command, times: seq<int>)
    requires |times| == 1
    ensures Run(data, [cmd], times) == ApplyCommand(data, cmd, times[0])
  {
    assert [cmd][..0] == [] && times[..0] == [];
  }

  // ---- Maintenance is unobservable ----

  /** The unexpired entries, without the timestamps no client sees. */
  ghost predicate SameLive(a: Data, b: Data, now: int) {
    forall k ::
      && (k in a && !Past(a[k].expiresAt, now) <==> k in b && !Past(b[k].expiresAt, now))
      && (k in a && !Past(a[k].expiresAt, now) ==> a[k].value == b[k].value && a[k].expiresAt == b[k].expiresAt)
  }

  lemma SameLiveLater(a: Data, b: Data, now: int, later: int)
    requires SameLive(a, b, now) && now <= later
    ensures SameLive(a, b, later)
  {
  }

  lemma SameLiveObserved(a: Data, b: Data, now: int)
    requires SameLive(a, b, now)
    ensures forall k :: Get(a, k, now) == Get(b, k, now)
    ensures GetAll(a, now) == GetAll(b, now)
  {
  }

  lemma ApplySameLive(a: Data, b: Data, cmd: Command, now: int)
    requires SameLive(a, b, now)
    ensures SameLive(ApplyCommand(a, cmd, now), ApplyCommand(b, cmd, now), now)
  {
  }

  lemma PurgeSameLive(a: Data, b: Data, now: int)
    requires SameLive(a, b, now)
    ensures SameLive(Purge(a, now), b, now)
  {
  }

  /** What a replica does over time: primitive commands, and maintenance of two kinds. A snapshot
      is taken and restored in one step. */
  datatype Event = Do(cmd: Command) | SnapshotRestore | Cleanup

  function Handle(data: Data, e: Event, now: int): Data {
    match e
    case Do(cmd) => ApplyCommand(data, cmd, now)
    case SnapshotRestore => Purge(data, now)
    case Cleanup => Purge(data, now)
  }

  function History(data: Data, events: seq<Event>, times: seq<int>): Data
    requires |times| == |events|
  {
    if events == [] then data
    else
      var last := |events| - 1;
      Handle(History(data, events[..last], times[..last]), events[last], times[last])
  }

  /** The same history with the maintenance left out. */
  function Undisturbed(data: Data, events: seq<Event>, times: seq<int>): Data
    requires |times| == |events|
  {
    if events == [] then data
    else
      var last := |events| - 1;
      var before := Undisturbed(data, events[..last], times[..last]);
      if events[last].Do? then ApplyCommand(before, events[last].cmd, times[last]) else before
  }

  ghost predicate Clock(times: seq<int>) {
    forall i, j :: 0 <= i < j < |times| ==> times[i] <= times[j]
  }

  /** Any interleaving of snapshot-and-restore and cleanup into a run, with expiry and a clock that
      never goes back, is invisible: Get and GetAll answer alike at every time from then on. */
  lemma {:induction false} MaintenanceUnobservable(data: Data, events: seq<Event>, times: seq<int>, now: int)
    requires |times| == |events| && Clock(times)
    requires times != [] ==> times[|times| - 1] <= now
    ensures SameLive(History(data, events, times), Undisturbed(data, events, times), now)
    ensures GetAll(History(data, events, times), now) == GetAll(Undisturbed(data, events, times), now)
    ensures forall k :: Get(History(data, events, times), k, now) == Get(Undisturbed(data, events, times), k, now)
  {
    if events != [] {
      var last := |events| - 1;
      MaintenanceUnobservable(data, events[..last], times[..last], times[last]);
      var a, b := History(data, events[..last], times[..last]), Undisturbed(data, events[..last], times[..last]);
      if events[last].Do? {
        ApplySameLive(a, b, events[last].cmd, times[last]);
      } else {
        PurgeSameLive(a, b, times[last]);
      }
      SameLiveLater(History(data, events, times), Undisturbed(data, events, times), times[last], now);
    }
    SameLiveObserved(History(data, events, times), Undisturbed(data, events, times), now);
  }

  // ---- Replicas applying one log at different times ----

  predicate Sets(cmd: Command, key: string) {
    cmd.op == "set" && cmd.key == key
  }

  predicate Deletes(cmd: Command, key: string) {
    cmd.op == "delete" && cmd.key == key
  }

  /** The intended answer, independent of when commands were applied: the last command on the key
      decides, and an expiring value is gone once expired. */
  function LastWrite(log: seq<Command>, key: string, now: int): Option<Bytes> {
    if log == [] then None
    else
      var cmd := log[|log| - 1];
      if Sets(cmd, key) then (if Past(cmd.expiresAt, now) then None else Some(cmd.value))
      else if Deletes(cmd, key) then None
      else LastWrite(log[..|log| - 1], key, now)
  }

  /** Every set of the key since its last delete expires, and not after `e`. */
  predicate ExpiresBy(log: seq<Command>, key: string, e: int) {
    if log == [] then true
    else
      var cmd := log[|log| - 1];
      if Deletes(cmd, key) then true
      else if Sets(cmd, key) then 0 < cmd.expiresAt <= e && ExpiresBy(log[..|log| - 1], key, e)
      else ExpiresBy(log[..|log| - 1], key, e)
  }

  /** Skipping the key's last set, if it expires, can uncover nothing that outlives it. */
  predicate Settled(log: seq<Command>, key: string) {
    if log == [] then true
    else
      var cmd := log[|log| - 1];
      if Sets(cmd, key) then cmd.expiresAt > 0 ==> ExpiresBy(log[..|log| - 1], key, cmd.expiresAt)
      else if Deletes(cmd, key) then true
      else Settled(log[..|log| - 1], key)
  }

  lemma {:induction false} StoredExpiresBy(log: seq<Command>, times: seq<int>, key: string, e: int)
    requires |times| == |log| && ExpiresBy(log, key, e)
    ensures var data := Run(map[], log, times); key in data ==> 0 < data[key].expiresAt <= e
  {
    if log != [] {
      var last := |log| - 1;
      if !Deletes(log[last], key) {
        StoredExpiresBy(log[..last], times[..last], key, e);
      }
    }
  }

  /** On a settled key every timing gives the intended answer. */
  lemma {:induction false} SettledAnswers(log: seq<Command>, times: seq<int>, key: string, now: int)
    requires |times| == |log| && Clock(times) && (times != [] ==> times[|times| - 1] <= now)
    requires Settled(log, key)
    ensures Get(Run(map[], log, times), key, now) == LastWrite(log, key, now)
  {
    if log != [] {
      var last := |log| - 1;
      var cmd := log[last];
      if Sets(cmd, key) {
        if Past(cmd.expiresAt, times[last]) {
          StoredExpiresBy(log[..last], times[..last], key, cmd.expiresAt);
        }
      } else if !Deletes(cmd, key) {
        SettledAnswers(log[..last], times[..last], key, now);
      }
    }
  }

  function Constantly(n: nat, t: int): (times: seq<int>)
    ensures |times| == n && forall i :: 0 <= i < n ==> times[i] == t
  {
    seq(n, i => t)
  }

  lemma ConstantPrefix(n: nat, t: int)
    requires 0 < n
    ensures Constantly(n, t)[..n - 1] == Constantly(n - 1, t)
  {
  }

  /** If not everything expires by `e`, applying the log late enough leaves a live entry after `e`. */
  lemma {:induction false} LateEntry(log: seq<Command>, key: string, e: int) returns (t: int)
    requires 0 < e && !ExpiresBy(log, key, e)
    ensures e * NANOS < t
    ensures Get(Run(map[], log, Constantly(|log|, t)), key, t).Some?
  {
    var last := |log| - 1;
    var cmd := log[last];
    if Sets(cmd, key) && cmd.expiresAt <= 0 {
      t := e * NANOS + 1;
    } else if Sets(cmd, key) && e < cmd.expiresAt {
      t := cmd.expiresAt * NANOS;
    } else {
      t := LateEntry(log[..last], key, e);
    }
    ConstantPrefix(|log|, t);
  }

  /** On an unsettled key the log can be applied so late that an overwritten value reappears. */
  lemma {:induction false} UnsettledReappears(log: seq<Command>, key: string) returns (t: int)
    requires !Settled(log, key)
    ensures 0 < t
    ensures Get(Run(map[], log, Constantly(|log|, t)), key, t).Some?
    ensures LastWrite(log, key, t).None?
  {
    var last := |log| - 1;
    if Sets(log[last], key) {
      t := LateEntry(log[..last], key, log[last].expiresAt);
    } else {
      t := UnsettledReappears(log[..last], key);
    }
    ConstantPrefix(|log|, t);
  }

  /** Applied at time zero nothing is skipped, so the intended answer comes out. */
  lemma {:induction false} EarlyAnswers(log: seq<Command>, key: string, now: int)
    requires 0 <= now
    ensures Get(Run(map[], log, Constantly(|log|, 0)), key, now) == LastWrite(log, key, now)
  {
    if log != [] {
      ConstantPrefix(|log|, 0);
      var cmd := log[|log| - 1];
      if !Sets(cmd, key) && !Deletes(cmd, key) {
        EarlyAnswers(log[..|log| - 1], key, now);
      }
    }
  }

  /** Two replicas that applied the log at any times of their own answer alike afterwards. */
  ghost predicate ReplicasAgree(log: seq<Command>, key: string) {
    forall s: seq<int>, t: seq<int>, now: int ::
      |s| == |log| && |t| == |log| && Clock(s) && Clock(t)
      && (s != [] ==> s[|s| - 1] <= now) && (t != [] ==> t[|t| - 1] <= now)
      ==> Get(Run(map[], log, s), key, now) == Get(Run(map[], log, t), key, now)
  }

  /** Agreement across replicas holds for exactly the settled keys of the log. */
  lemma ReplicasAgreeIff(log: seq<Command>, key: string)
    ensures ReplicasAgree(log, key) <==> Settled(log, key)
  {
    if Settled(log, key) {
      forall s: seq<int>, t: seq<int>, now: int
        | |s| == |log| && |t| == |log| && Clock(s) && Clock(t)
          && (s != [] ==> s[|s| - 1] <= now) && (t != [] ==> t[|t| - 1] <= now)
        ensures Get(Run(map[], log, s), key, now) == Get(Run(map[], log, t), key, now)
      {
        SettledAnswers(log, s, key, now);
        SettledAnswers(log, t, key, now);
      }
    } else {
      var late := UnsettledReappears(log, key);
      EarlyAnswers(log, key, late);
      var s, t := Constantly(|log|, 0), Constantly(|log|, late);
      assert Clock(s) && Clock(t);
      assert Get(Run(map[], log, s), key, late) != Get(Run(map[], log, t), key, late);
    }
  }

  /** In particular, replicas agree on every key of a log without expiry. */
  lemma {:induction false} NoExpirySettled(log: seq<Command>, key: string)
    requires forall i :: 0 <= i < |log| ==> log[i].op == "set" ==> log[i].expiresAt <= 0
    ensures Settled(log, key)
  {
    if log != [] {
      NoExpirySettled(log[..|log| - 1], key);
    }
  }

  /** A plain value overwritten by an expiring one comes back on a replica that applies both late. */
  lemma OverwrittenValueReturns(key: string, v: Bytes, w: Bytes)
    ensures var log := [Command("set", key, v, 0), Command("set", key, w, 10)];
            var late := 11 * NANOS;
            && Get(Run(map[], log, [0, 0]), key, late) == None
            && Get(Run(map[], log, [late, late]), key, late) == Some(v)
            && !ReplicasAgree(log, key)
  {
    var log := [Command("set", key, v, 0), Command("set", key, w, 10)];
    var late := 11 * NANOS;
    assert log[..1] == [log[0]] && [0, 0][..1] == [0] && [late, late][..1] == [late];
    RunOne(map[], log[0], [0]);
    RunOne(map[], log[0], [late]);
    assert !ExpiresBy([log[0]], key, 10);
    ReplicasAgreeIff(log, key);
  }

  // ---- Payloads ----

  /** Applying two batches of commands in a row is applying their concatenation. */
  lemma {:induction false} RunSplit(data: Data, a: seq<Command>, s: seq<int>, b: seq<Command>, t: seq<int>)
    requires |s| == |a| && |t| == |b|
    ensures Run(data, a + b, s + t) == Run(Run(data, a, s), b, t)
  {
    if b == [] {
      assert a + b == a && s + t == s;
    } else {
      var last := |b| - 1;
      assert (a + b)[..|a + b| - 1] == a + b[..last];
      assert (s + t)[..|s + t| - 1] == s + t[..last];
      RunSplit(data, a, s, b[..last], t[..last]);
    }
  }

  /** The primitive commands of a payload; an undecodable one has none. */
  function Commands(p: Payload): seq<Command> {
    if Flatten(p).Some? then Flatten(p).value else []
  }

  /** All primitive commands of a log of payloads, in order. */
  function FlatLog(ps: seq<Payload>): seq<Command> {
    if ps == [] then [] else FlatLog(ps[..|ps| - 1]) + Commands(ps[|ps| - 1])
  }

  function FlatTimes(readings: seq<seq<int>>): seq<int> {
    if readings == [] then [] else FlatTimes(readings[..|readings| - 1]) + readings[|readings| - 1]
  }

  /** One clock reading per primitive command of each payload. */
  predicate Timed(ps: seq<Payload>, readings: seq<seq<int>>) {
    |readings| == |ps| && forall i :: 0 <= i < |ps| ==> |readings[i]| == |Commands(ps[i])|
  }

  /** Apply called on each payload of a log. */
  function RunLog(data: Data, ps: seq<Payload>, readings: seq<seq<int>>): Data
    requires Timed(ps, readings)
  {
    if ps == [] then data
    else
      var last := |ps| - 1;
      Run(RunLog(data, ps[..last], readings[..last]), Commands(ps[last]), readings[last])
  }

  /** However commands are grouped into payloads, the log acts as its flat list of commands. */
  lemma {:induction false} RunLogIsRun(data: Data, ps: seq<Payload>, readings: seq<seq<int>>)
    requires Timed(ps, readings)
    ensures |FlatTimes(readings)| == |FlatLog(ps)|
    ensures RunLog(data, ps, readings) == Run(data, FlatLog(ps), FlatTimes(readings))
  {
    if ps != [] {
      var last := |ps| - 1;
      RunLogIsRun(data, ps[..last], readings[..last]);
      RunSplit(data, FlatLog(ps[..last]), FlatTimes(readings[..last]), Commands(ps[last]), readings[last]);
    }
  }

  /** Replicas fed the same payloads at times of their own agree on every settled key. */
  lemma PayloadReplicasAgree(ps: seq<Payload>, s: seq<seq<int>>, t: seq<seq<int>>, key: string, now: int)
    requires Timed(ps, s) && Timed(ps, t) && Clock(FlatTimes(s)) && Clock(FlatTimes(t))
    requires forall i :: 0 <= i < |FlatTimes(s)| ==> FlatTimes(s)[i] <= now
    requires forall i :: 0 <= i < |FlatTimes(t)| ==> FlatTimes(t)[i] <= now
    requires Settled(FlatLog(ps), key)
    ensures Get(RunLog(map[], ps, s), key, now) == Get(RunLog(map[], ps, t), key, now) == LastWrite(FlatLog(ps), key, now)
  {
    RunLogIsRun(map[], ps, s);
    RunLogIsRun(map[], ps, t);
    SettledAnswers(FlatLog(ps), FlatTimes(s), key, now);
    SettledAnswers(FlatLog(ps), FlatTimes(t), key, now);
  }

  // ---- Crash recovery ----

  lemma {:induction false} RunSameLive(a: Data, b: Data, log: seq<Command>, times: seq<int>, from: int)
    requires |times| == |log| && Clock(times) && (forall i :: 0 <= i < |times| ==> from <= times[i])
    requires SameLive(a, b, from)
    ensures SameLive(Run(a, log, times), Run(b, log, times), if times == [] then from else times[|times| - 1])
  {
    if log != [] {
      var last := |log| - 1;
      RunSameLive(a, b, log[..last], times[..last], from);
      var so_far := if last == 0 then from else times[last - 1];
      SameLiveLater(Run(a, log[..last], times[..last]), Run(b, log[..last], times[..last]), so_far, times[last]);
      ApplySameLive(Run(a, log[..last], times[..last]), Run(b, log[..last], times[..last]), log[last], times[last]);
    }
  }

  lemma ClockWithout(a: seq<int>, t: int, b: seq<int>)
    requires Clock(a + [t] + b)
    ensures Clock(a + b)
  {
    var whole := a + [t] + b;
    forall i, j | 0 <= i < j < |a + b|
      ensures (a + b)[i] <= (a + b)[j]
    {
      assert (a + b)[i] == whole[if i < |a| then i else i + 1];
      assert (a + b)[j] == whole[if j < |a| then j else j + 1];
    }
  }

  /** A replica that restores an old snapshot and replays the rest of the log later answers, on
      settled keys, like one that never crashed. */
  lemma RecoveryAgrees(prefix: seq<Command>, s: seq<int>, suffix: seq<Command>, restored: int, replay: seq<int>,
                       live: seq<int>, key: string, now: int)
    requires |s| == |prefix| && |replay| == |suffix| && |live| == |suffix|
    requires Clock(s + [restored] + replay) && Clock(s + live)
    requires forall i :: 0 <= i < |s + [restored] + replay| ==> (s + [restored] + replay)[i] <= now
    requires forall i :: 0 <= i < |s + live| ==> (s + live)[i] <= now
    requires Settled(prefix + suffix, key)
    ensures Get(Run(Purge(Run(map[], prefix, s), restored), suffix, replay), key, now)
            == Get(Run(Run(map[], prefix, s), suffix, live), key, now)
  {
    var snapshot := Run(map[], prefix, s);
    var restart := s + [restored] + replay;
    assert forall i :: 0 <= i < |replay| ==> replay[i] == restart[|s| + 1 + i];
    assert restart[|s|] == restored;
    assert forall i :: 0 <= i < |s| ==> s[i] == restart[i];
    PurgeSameLive(snapshot, snapshot, restored);
    RunSameLive(Purge(snapshot, restored), snapshot, suffix, replay, restored);
    var until := if replay == [] then restored else replay[|replay| - 1];
    SameLiveLater(Run(Purge(snapshot, restored), suffix, replay), Run(snapshot, suffix, replay), until, now);
    SameLiveObserved(Run(Purge(snapshot, restored), suffix, replay), Run(snapshot, suffix, replay), now);
    RunSplit(map[], prefix, s, suffix, replay);
    RunSplit(map[], prefix, s, suffix, live);
    ClockWithout(s, restored, replay);
    SettledAnswers(prefix + suffix, s + replay, key, now);
    SettledAnswers(prefix + suffix, s + live, key, now);
  }

  /** Metadata payloads never expire, so replicas agree on every log made of them. */
  lemma MetadataAgrees(ms: seq<MetadataCommand>, key: string)
    ensures ReplicasAgree(AsCommands(ms), key)
  {
    NoExpirySettled(AsCommands(ms), key);
    ReplicasAgreeIff(AsCommands(ms), key);
  }
}
