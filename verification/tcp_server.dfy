/**
  `TcpServer`: the receive handlers write parsed values into the `_latest…` fields
  and raise `_newDataAvailable` under `_latestDataLock`; `Update` takes them on the
  main thread, applies them to the material and camera, and sends the target's
  position relative to the camera to every connected client. The client list is
  guarded by `clientsLock`. Each lock-protected block is one atomic step here.
*/
module TcpServerModel {
  import opened Wrappers
  import opened Vectors
  import opened LineReassembler
  import opened TcpParse

  /** `_latestNoiseIntensity`, `_latestNoiseSpeed`, `_latestCameraTransform`, `_newDataAvailable`. */
  datatype Latest = Latest(noiseIntensity: real, noiseSpeed: real, cameraTransform: Vec3, newDataAvailable: bool)

  predicate AnyPresent(p: ParsedTcpData) {
    p.noiseIntensity.Some? || p.noiseSpeed.Some? || p.cameraTransform.Some?
  }

  /** `Start`: the inspector's noise values are kept only when the grid object has a
      renderer (otherwise the fields keep C#'s default 0); the camera field starts at
      the camera's position, or the origin without a camera. */
  function Init(hasRenderer: bool, inspectorIntensity: real, inspectorSpeed: real,
                camera: Option<Vec3>): (m: Latest)
    ensures !m.newDataAvailable
    ensures hasRenderer ==> m.noiseIntensity == inspectorIntensity && m.noiseSpeed == inspectorSpeed
    ensures !hasRenderer ==> m.noiseIntensity == 0.0 && m.noiseSpeed == 0.0
    ensures m.cameraTransform == (if camera.Some? then camera.value else Zero)
  {
    Latest(if hasRenderer then inspectorIntensity else 0.0,
           if hasRenderer then inspectorSpeed else 0.0,
           camera.GetOr(Zero), false)
  }

  /** The locked write after one message: only the parsed fields are overwritten, and
      the flag is raised when at least one field was parsed; it is never lowered. */
  function Write(m: Latest, p: ParsedTcpData): (r: Latest)
    ensures r.noiseIntensity == (if p.noiseIntensity.Some? then p.noiseIntensity.value else m.noiseIntensity)
    ensures r.noiseSpeed == (if p.noiseSpeed.Some? then p.noiseSpeed.value else m.noiseSpeed)
    ensures r.cameraTransform == (if p.cameraTransform.Some? then p.cameraTransform.value else m.cameraTransform)
    ensures r.newDataAvailable <==> m.newDataAvailable || AnyPresent(p)
    ensures !AnyPresent(p) ==> r == m
  {
    Latest(p.noiseIntensity.GetOr(m.noiseIntensity), p.noiseSpeed.GetOr(m.noiseSpeed),
           p.cameraTransform.GetOr(m.cameraTransform), m.newDataAvailable || AnyPresent(p))
  }

  /** Two writes in a row are one write of the merged parse, later fields winning. */
  lemma WriteWrite(m: Latest, p: ParsedTcpData, q: ParsedTcpData)
    ensures Write(Write(m, p), q) == Write(m, Merge(p, q))
  {
  }

  /** The source's reason for seeding the fields in `Start`: a first message that
      lacks a key leaves the inspector's value in place rather than 0. */
  lemma MissingKeyKeepsInspectorValue(intensity: real, speed: real, camera: Option<Vec3>, p: ParsedTcpData)
    requires p.noiseIntensity.None?
    ensures Write(Init(true, intensity, speed, camera), p).noiseIntensity == intensity
  {
  }

  /** One complete, trimmed, non-blank message. */
  function WriteMessage(m: Latest, message: string, parse: Parser): Latest {
    Write(m, ExtractData(message, parse))
  }

  /** Two messages in a row write what their ','-joined concatenation writes. */
  lemma WriteTwoMessages(m: Latest, a: string, b: string, parse: Parser)
    ensures WriteMessage(WriteMessage(m, a, parse), b, parse) == WriteMessage(m, a + [','] + b, parse)
  {
    LaterSegmentsOverride(a, b, parse);
    WriteWrite(m, ExtractData(a, parse), ExtractData(b, parse));
  }

  /** The messages of one read, in order. */
  function WriteMessages(m: Latest, messages: seq<string>, parse: Parser): (r: Latest)
    ensures m.newDataAvailable ==> r.newDataAvailable
    decreases |messages|
  {
    if messages == [] then m
    else WriteMessages(WriteMessage(m, messages[0], parse), messages[1..], parse)
  }

  lemma {:induction false} WriteMessagesAppend(m: Latest, a: seq<string>, b: seq<string>, parse: Parser)
    ensures WriteMessages(m, a + b, parse) == WriteMessages(WriteMessages(m, a, parse), b, parse)
    decreases |a|
  {
    if a == [] {
      assert a + b == b;
    } else {
      HeadTail(a, b);
      WriteMessagesAppend(WriteMessage(m, a[0], parse), a[1..], b, parse);
      WriteMessagesCons(m, a[0], a[1..] + b, parse);
    }
  }

  lemma WriteMessagesCons(m: Latest, message: string, rest: seq<string>, parse: Parser)
    ensures WriteMessages(m, [message] + rest, parse) == WriteMessages(WriteMessage(m, message, parse), rest, parse)
  {
    assert ([message] + rest)[1..] == rest;
  }

  /** The reads of a connection up to the first empty one (`bytesRead == 0`), which ends it. */
  function UntilClosed(chunks: seq<string>): (r: seq<string>)
    ensures |r| <= |chunks|
    ensures forall k :: 0 <= k < |r| ==> r[k] == chunks[k] && r[k] != []
    ensures |r| < |chunks| ==> chunks[|r|] == []
  {
    if chunks == [] || chunks[0] == [] then [] else [chunks[0]] + UntilClosed(chunks[1..])
  }

  /** `HandleClientAsync`'s loop over reads: append each chunk, drain the complete
      messages and write each one; an empty read ends the connection. */
  function Connection(m: Latest, buffer: string, chunks: seq<string>, parse: Parser): Latest
    decreases |chunks|
  {
    if chunks == [] || chunks[0] == [] then m
    else
      var d := Receive(buffer, chunks[0]);
      Connection(WriteMessages(m, d.messages, parse), d.rest, chunks[1..], parse)
  }

  lemma {:induction false} ConnectionDrains(m: Latest, buffer: string, chunks: seq<string>, parse: Parser)
    ensures Connection(m, buffer, chunks, parse)
      == WriteMessages(m, ReceiveAll(buffer, UntilClosed(chunks)).messages, parse)
    decreases |chunks|
  {
    if chunks == [] || chunks[0] == [] {
    } else {
      var d := Receive(buffer, chunks[0]);
      ConnectionDrains(WriteMessages(m, d.messages, parse), d.rest, chunks[1..], parse);
      WriteMessagesAppend(m, d.messages, ReceiveAll(d.rest, UntilClosed(chunks[1..])).messages, parse);
      assert UntilClosed(chunks)[1..] == UntilClosed(chunks[1..]);
    }
  }

  /** What a connection leaves in the shared fields depends only on the text it
      delivered before closing, not on how that text was split into reads. */
  lemma ConnectionSeesOneStream(m: Latest, chunks: seq<string>, parse: Parser)
    ensures Connection(m, [], chunks, parse)
      == WriteMessages(m, Messages(Frames(Concat(UntilClosed(chunks)))), parse)
  {
    ConnectionDrains(m, [], chunks, parse);
    ChunkingInvariance([], UntilClosed(chunks));
    assert [] + Concat(UntilClosed(chunks)) == Concat(UntilClosed(chunks));
  }

  /** The values `Update` copies out under the lock. */
  datatype Snapshot = Snapshot(noiseIntensity: real, noiseSpeed: real, cameraTransform: Vec3)

  datatype Taken = Taken(latest: Latest, snapshot: Option<Snapshot>)

  /** `Update`'s locked read: when the flag is up, lower it and copy all three fields. */
  function Take(m: Latest): (t: Taken)
    ensures t.snapshot.Some? <==> m.newDataAvailable
    ensures t.snapshot.Some? ==>
      t.snapshot.value == Snapshot(m.noiseIntensity, m.noiseSpeed, m.cameraTransform)
    ensures !t.latest.newDataAvailable
    ensures t.latest == m.(newDataAvailable := false)
  {
    if m.newDataAvailable then
      Taken(m.(newDataAvailable := false), Some(Snapshot(m.noiseIntensity, m.noiseSpeed, m.cameraTransform)))
    else Taken(m, None)
  }

  /** A second take with no write in between finds nothing. */
  lemma TakeTwice(m: Latest)
    ensures Take(Take(m).latest).snapshot.None?
    ensures Take(Take(m).latest).latest == Take(m).latest
  {
  }

  /** A message that parsed at least one field is always seen by the next take, with
      the written values. */
  lemma WriteThenTake(m: Latest, p: ParsedTcpData)
    requires AnyPresent(p)
    ensures Take(Write(m, p)).snapshot.Some?
    ensures p.noiseIntensity.Some? ==> Take(Write(m, p)).snapshot.value.noiseIntensity == p.noiseIntensity.value
    ensures p.noiseSpeed.Some? ==> Take(Write(m, p)).snapshot.value.noiseSpeed == p.noiseSpeed.value
    ensures p.cameraTransform.Some? ==> Take(Write(m, p)).snapshot.value.cameraTransform == p.cameraTransform.value
  {
  }

  /** The noise parameters of the grid's material. */
  datatype MaterialParams = MaterialParams(noiseIntensity: real, noiseSpeed: real)

  /** The scene objects `Update` touches; a missing object is `None`. */
  datatype Scene = Scene(material: Option<MaterialParams>, camera: Option<Vec3>, target: Option<Vec3>)

  datatype Frame = Frame(latest: Latest, scene: Scene, sent: Option<Vec3>)

  /** One `Update`: take, apply to whichever of material and camera exist, then, when
      both target and camera exist, send the target relative to the (new) camera position. */
  function Update(m: Latest, scene: Scene): (f: Frame)
    ensures f.latest == m.(newDataAvailable := false)
    ensures f.scene.target == scene.target
    ensures f.scene.material.Some? <==> scene.material.Some?
    ensures f.scene.camera.Some? <==> scene.camera.Some?
    ensures !m.newDataAvailable ==> f.scene == scene
    ensures m.newDataAvailable && scene.material.Some? ==>
      f.scene.material == Some(MaterialParams(m.noiseIntensity, m.noiseSpeed))
    ensures m.newDataAvailable && scene.camera.Some? ==> f.scene.camera == Some(m.cameraTransform)
    ensures f.sent.Some? <==> scene.target.Some? && scene.camera.Some?
    ensures f.sent.Some? ==> f.sent.value == Sub(scene.target.value, f.scene.camera.value)
  {
    var t := Take(m);
    var applied :=
      if t.snapshot.None? then scene
      else
        var s := t.snapshot.value;
        Scene(if scene.material.Some? then Some(MaterialParams(s.noiseIntensity, s.noiseSpeed)) else None,
              if scene.camera.Some? then Some(s.cameraTransform) else None,
              scene.target);
    var sent :=
      if applied.target.Some? && applied.camera.Some? then Some(Sub(applied.target.value, applied.camera.value))
      else None;
    Frame(t.latest, applied, sent)
  }

  /** With no message in between, a second `Update` changes nothing in the scene
      and sends the same vector again. */
  lemma UpdateSettles(m: Latest, scene: Scene)
    ensures Update(Update(m, scene).latest, Update(m, scene).scene).scene == Update(m, scene).scene
    ensures Update(Update(m, scene).latest, Update(m, scene).scene).sent == Update(m, scene).sent
  {
  }

  /** Client identities; `connectedClients` is a list of them. */
  type ClientId = nat

  /** The accept loop adds each new client at the end of the list. */
  function Accept(clients: seq<ClientId>, c: ClientId): (r: seq<ClientId>)
    ensures |r| == |clients| + 1 && r[..|clients|] == clients && r[|clients|] == c
  {
    clients + [c]
  }

  /** `List.Remove`: the first occurrence goes, nothing happens when it is absent. */
  function Remove(clients: seq<ClientId>, c: ClientId): (r: seq<ClientId>)
    ensures c !in clients ==> r == clients
    ensures |r| == (if c in clients then |clients| - 1 else |clients|)
    ensures forall x :: x in r ==> x in clients
  {
    if clients == [] then []
    else if clients[0] == c then clients[1..]
    else [clients[0]] + Remove(clients[1..], c)
  }

  lemma RemoveCons(h: ClientId, t: seq<ClientId>, c: ClientId)
    ensures Remove([h] + t, c) == if h == c then t else [h] + Remove(t, c)
  {
    assert ([h] + t)[1..] == t;
  }

  /** Removal takes away exactly one copy of the client, when there is one. */
  lemma {:induction false} RemoveOneCopy(clients: seq<ClientId>, c: ClientId)
    ensures multiset(Remove(clients, c)) == multiset(clients) - multiset{c}
  {
    if clients != [] {
      var h, t := clients[0], clients[1..];
      assert clients == [h] + t;
      RemoveCons(h, t, c);
      if h != c {
        RemoveOneCopy(t, c);
      }
    }
  }

  predicate Distinct(clients: seq<ClientId>) {
    forall i, j :: 0 <= i < j < |clients| ==> clients[i] != clients[j]
  }

  lemma DistinctCons(h: ClientId, t: seq<ClientId>)
    ensures Distinct([h] + t) <==> h !in t && Distinct(t)
  {
    var s := [h] + t;
    assert forall k :: 0 <= k < |t| ==> s[k + 1] == t[k];
    if Distinct(s) {
      forall i, j | 0 <= i < j < |t| ensures t[i] != t[j] {
        assert s[i + 1] == t[i] && s[j + 1] == t[j];
      }
      forall k | 0 <= k < |t| ensures t[k] != h {
        assert s[0] == h && s[k + 1] == t[k];
      }
    }
    if h !in t && Distinct(t) {
      forall i, j | 0 <= i < j < |s| ensures s[i] != s[j] {
        if i > 0 {
          assert s[i] == t[i - 1] && s[j] == t[j - 1];
        } else {
          assert s[j] == t[j - 1];
        }
      }
    }
  }

  /** A connection that closes removes exactly what it added. */
  lemma AcceptThenRemove(clients: seq<ClientId>, c: ClientId)
    requires c !in clients
    ensures Remove(Accept(clients, c), c) == clients
  {
    RemoveAbsentPrefix(clients, [c], c);
    assert [c][1..] == [];
    assert clients + [] == clients;
  }

  lemma {:induction false} RemoveAbsentPrefix(a: seq<ClientId>, b: seq<ClientId>, c: ClientId)
    requires c !in a
    ensures Remove(a + b, c) == a + Remove(b, c)
  {
    if a == [] {
      assert a + b == b;
    } else {
      HeadTail(a, b);
      RemoveAbsentPrefix(a[1..], b, c);
      RemoveCons(a[0], a[1..] + b, c);
      Reassociate([a[0]], a[1..], Remove(b, c));
    }
  }

  /** Removal keeps a list free of duplicates and takes the client out entirely. */
  lemma {:induction false} RemoveDistinct(clients: seq<ClientId>, c: ClientId)
    requires Distinct(clients)
    ensures Distinct(Remove(clients, c))
    ensures c !in Remove(clients, c)
  {
    if clients != [] {
      var h, t := clients[0], clients[1..];
      assert clients == [h] + t;
      DistinctCons(h, t);
      RemoveCons(h, t, c);
      if h != c {
        RemoveDistinct(t, c);
        DistinctCons(h, Remove(t, c));
      }
    }
  }

  /** Accepting a client not yet listed keeps the list free of duplicates. */
  lemma AcceptDistinct(clients: seq<ClientId>, c: ClientId)
    requires Distinct(clients) && c !in clients
    ensures Distinct(Accept(clients, c))
  {
    var r := Accept(clients, c);
    forall i, j | 0 <= i < j < |r| ensures r[i] != r[j] {
      if j == |clients| {
        assert r[i] == clients[i];
      } else {
        assert r[i] == clients[i] && r[j] == clients[j];
      }
    }
  }

  /** `SendParameterToAllClients`: a snapshot of the list, filtered to the clients
      still connected, in list order. */
  function Recipients(clients: seq<ClientId>, connected: ClientId -> bool): (r: seq<ClientId>)
    ensures forall c :: c in r <==> c in clients && connected(c)
    ensures |r| <= |clients|
  {
    if clients == [] then []
    else (if connected(clients[0]) then [clients[0]] else []) + Recipients(clients[1..], connected)
  }

  datatype Stopped = Stopped(closed: seq<ClientId>, clients: seq<ClientId>)

  /** `StopTcpServer`: every listed client is closed, then the list is cleared. */
  function Stop(clients: seq<ClientId>): (s: Stopped)
    ensures s.clients == []
    ensures forall c :: c in s.closed <==> c in clients
    ensures s.closed == clients
  {
    Stopped(clients, [])
  }

  /** After stopping, no client is left to send to, removing finds nothing, and the next
      accepted client is the only one listed. */
  lemma StopForgetsClients(clients: seq<ClientId>, connected: ClientId -> bool, c: ClientId)
    ensures Recipients(Stop(clients).clients, connected) == []
    ensures Remove(Stop(clients).clients, c) == []
    ensures Accept(Stop(clients).clients, c) == [c]
  {
  }
}
