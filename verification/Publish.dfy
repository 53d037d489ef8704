/** Publishing a generated configuration to the proxy repository, over a network that may fail at any exchange. */
module Publish {
  import opened Words
  import opened Text

  const MAX_U64: nat := 0xffff_ffff_ffff_ffff

  /** A codebase on the repository server: its version, its committed files, and the files as they are to be
      at the next commit. */
  datatype Codebase = Codebase(version: string, live: map<string, string>, edited: map<string, string>)

  /** A file to upload, or to delete if it is obsolete. */
  datatype Item = Item(path: string, content: string, obsolete: bool)

  /** One HTTP exchange: carried out, refused, or lost before or after the server carried it out. */
  datatype Outcome = Fine | BadStatus | LostBefore | LostAfter

  predicate Lost(o: Outcome) {
    o.LostBefore? || o.LostAfter?
  }

  predicate Applied(o: Outcome) {
    o.Fine? || o.LostAfter?
  }

  /** The exchanges one publication may make. */
  datatype Step =
    | DeriveCheck | DerivePost | DeriveGet | DeriveCommit
    | BatchCheck | BatchPost | BatchGet | Upload(item: nat) | BatchCommit | Cleanup

  type Net = Step -> Outcome

  type Server = Option<Codebase>

  /** The repository: its codebases by base path. */
  type Repo = map<string, Codebase>

  function At(repo: Repo, path: string): Server {
    if path in repo then Some(repo[path]) else None
  }

  function Put(repo: Repo, path: string, server: Server): Repo {
    if server.Some? then repo[path := server.value] else repo - {path}
  }

  lemma PutAt(repo: Repo, path: string, server: Server)
    ensures At(Put(repo, path, server), path) == server && Put(repo, path, At(repo, path)) == repo
    ensures forall s: Server :: Put(Put(repo, path, server), path, s) == Put(repo, path, s)
  {}

  // ----- What each exchange does -----

  /** What a GET shows: a bad status reads like a codebase that is not there. */
  function Seen(server: Server, o: Outcome): Option<Codebase> {
    if o.Fine? then server else None
  }

  /** A codebase is created at the given version; one that exists is left as it is. */
  function Created(server: Server, o: Outcome, version: string): Server {
    if Applied(o) && server.None? then Some(Codebase(version, map[], map[])) else server
  }

  function Edited(server: Server, o: Outcome, item: Item): Server {
    if Applied(o) && server.Some? then
      var files := server.value.edited;
      Some(server.value.(edited := if item.obsolete then files - {item.path} else files[item.path := item.content]))
    else server
  }

  function Committed(server: Server, o: Outcome, version: string): Server {
    if Applied(o) && server.Some? then
      Some(server.value.(version := version, live := server.value.edited))
    else server
  }

  function Removed(server: Server, o: Outcome): Server {
    if Applied(o) then None else server
  }

  function Plus(n: nat): nat {
    (n + 1) % (MAX_U64 + 1)
  }

  /** The version a commit asks for: one more, in 64 bits. */
  function NextVersion(version: string): Option<string> {
    match ParseUint(version, MAX_U64)
    case Uint(n) => Some(Decimal(Plus(n)))
    case _ => None
  }

  datatype Reply = Reply(server: Server, success: bool, err: bool, crashed: bool)

  function Commit(server: Server, o: Outcome, version: string): Reply {
    var next := NextVersion(version);
    if next.None? then Reply(server, false, true, false)
    else Reply(Committed(server, o, next.value), o.Fine? && server.Some?, !(o.Fine? && server.Some?), false)
  }

  /** `DeriveCodebase`. A refused POST returns success beside its error. */
  function Derive(server: Server, net: Net, version: string): Reply {
    if Lost(net(DeriveCheck)) then Reply(server, false, true, false)
    else if Seen(server, net(DeriveCheck)).Some? then Reply(server, true, false, false)
    else
      var made := Created(server, net(DerivePost), version);
      if Lost(net(DerivePost)) then Reply(made, false, true, false)
      else if net(DerivePost).BadStatus? then Reply(made, true, true, false)
      else if Lost(net(DeriveGet)) then Reply(made, false, true, false)
      else
        var got := Seen(made, net(DeriveGet));
        if got.None? then Reply(made, true, false, true)
        else Commit(made, net(DeriveCommit), got.value.version)
  }

  /** Step 1 of a batch: the codebase's version, creating it if it is not seen. */
  function Opened(server: Server, net: Net, version: string): (Reply, Option<string>) {
    var seen := Seen(server, net(BatchCheck));
    if Lost(net(BatchCheck)) then (Reply(server, false, true, false), None)
    else if seen.Some? then (Reply(server, true, false, false), Some(seen.value.version))
    else
      var made := Created(server, net(BatchPost), version);
      if !net(BatchPost).Fine? then (Reply(made, false, true, false), None)
      else if Lost(net(BatchGet)) then (Reply(made, false, true, false), None)
      else
        var got := Seen(made, net(BatchGet));
        (Reply(made, true, false, false), if got.Some? then Some(got.value.version) else None)
  }

  /** Step 2: the items in order, up to the first upload that fails. A failed deletion does not matter. */
  function Edits(server: Server, net: Net, items: seq<Item>): (Server, bool) {
    if items == [] then (server, true)
    else
      var n := |items| - 1;
      var (before, ok) := Edits(server, net, items[..n]);
      if !ok then (before, false)
      else
        var o := net(Upload(n));
        (Edited(before, o, items[n]), items[n].obsolete || (o.Fine? && before.Some?))
  }

  function Batch(server: Server, net: Net, version: string, items: seq<Item>): Reply {
    var (r, v) := Opened(server, net, version);
    if v.None? then r
    else
      var (sent, ok) := Edits(r.server, net, items);
      if !ok then Reply(sent, false, true, false)
      else Commit(sent, net(BatchCommit), v.value)
  }

  const CONFIG: string := "config.json"

  function Minus(v: U64, n: nat): U64 {
    (v - n) % (MAX_U64 + 1)
  }

  /** `publishSidecarConf`: the server and the proxy's ETag afterwards. */
  function Published(server: Server, etag: U64, v: U64, conf: string, net: Net): (Server, U64, bool) {
    if v == etag then (server, etag, false)
    else
      var d := Derive(server, net, Decimal(Minus(v, 2)));
      if d.crashed then (d.server, etag, true)
      else
        var r := if d.success then Batch(d.server, net, Decimal(Minus(v, 1)), [Item(CONFIG, conf, false)]) else d;
        if r.err then (Removed(r.server, net(Cleanup)), etag, false) else (r.server, v, false)
  }

  lemma EditsSnoc(server: Server, net: Net, items: seq<Item>, i: nat)
    requires i < |items|
    ensures Edits(server, net, items[..i + 1]) ==
            var (before, ok) := Edits(server, net, items[..i]);
            if !ok then (before, false)
            else (Edited(before, net(Upload(i)), items[i]), items[i].obsolete || (net(Upload(i)).Fine? && before.Some?))
  {
    assert items[..i + 1][..i] == items[..i];
  }

  /** After a failed upload nothing more is sent. */
  lemma {:induction false} EditsStop(server: Server, net: Net, items: seq<Item>, i: nat)
    requires i <= |items| && !Edits(server, net, items[..i]).1
    ensures Edits(server, net, items) == Edits(server, net, items[..i])
    decreases |items|
  {
    var n := |items| - 1;
    if i <= n {
      assert items[..n][..i] == items[..i];
      EditsStop(server, net, items[..n], i);
    } else {
      assert items[..i] == items;
    }
  }

  lemma EditsOne(server: Server, net: Net, item: Item)
    ensures Edits(server, net, [item]) ==
            (Edited(server, net(Upload(0)), item), item.obsolete || (net(Upload(0)).Fine? && server.Some?))
  {
    assert [item][..0] == [];
  }

  // ----- Several base paths -----

  /** Files for one base path. */
  datatype Files = Files(path: string, items: seq<Item>)

  /** The batch committed, and so the loop goes on to the next one. */
  predicate Finishes(server: Server, net: Net, version: string, items: seq<Item>) {
    Opened(server, net, version).1.Some? && !Batch(server, net, version, items).err
  }

  /** The repository and the results after some batches, and whether the loop goes on. */
  datatype Progress = Progress(repo: Repo, success: bool, err: bool, goesOn: bool)

  /** `Batch`: one base path after another, up to the first that does not finish. */
  function Batches(repo: Repo, nets: nat -> Net, version: string, all: seq<Files>): Progress {
    if all == [] then Progress(repo, false, false, true)
    else
      var n := |all| - 1;
      var before := Batches(repo, nets, version, all[..n]);
      if before.goesOn then Submitted(before.repo, nets(n), version, all[n]) else before
  }

  function Submitted(repo: Repo, net: Net, version: string, files: Files): Progress {
    var server := At(repo, files.path);
    var r := Batch(server, net, version, files.items);
    Progress(Put(repo, files.path, r.server), r.success, r.err, Finishes(server, net, version, files.items))
  }

  lemma BatchesSnoc(repo: Repo, nets: nat -> Net, version: string, all: seq<Files>, i: nat)
    requires i < |all|
    ensures var before := Batches(repo, nets, version, all[..i]);
            Batches(repo, nets, version, all[..i + 1]) ==
            if before.goesOn then Submitted(before.repo, nets(i), version, all[i]) else before
  {
    assert all[..i + 1][..i] == all[..i];
  }

  /** After a batch that does not finish, no other is submitted. */
  lemma {:induction false} BatchesStop(repo: Repo, nets: nat -> Net, version: string, all: seq<Files>, i: nat)
    requires i <= |all| && !Batches(repo, nets, version, all[..i]).goesOn
    ensures Batches(repo, nets, version, all) == Batches(repo, nets, version, all[..i])
    decreases |all|
  {
    var n := |all| - 1;
    if i <= n {
      assert all[..n][..i] == all[..i];
      BatchesStop(repo, nets, version, all[..n], i);
    } else {
      assert all[..i] == all;
    }
  }

  lemma BatchesOne(repo: Repo, nets: nat -> Net, version: string, files: Files)
    ensures Batches(repo, nets, version, [files]) == Submitted(repo, nets(0), version, files)
  {
    assert [files][..0] == [];
  }

  class RepoClient {
    var repo: Repo

    method Get(path: string, o: Outcome) returns (codebase: Option<Codebase>, success: bool, err: bool)
      ensures codebase == Seen(At(repo, path), o) && err == Lost(o) && success == !err
    {
      codebase, success, err := None, false, true;
      if o == Fine {
        codebase, success, err := At(repo, path), true, false;
      } else if o == BadStatus {
        success, err := true, false;
      }
    }

    method Post(path: string, o: Outcome, version: string) returns (accepted: bool, err: bool)
      modifies this
      ensures repo == Put(old(repo), path, Created(At(old(repo), path), o, version))
      ensures accepted == o.Fine? && err == Lost(o)
    {
      PutAt(repo, path, None);
      if Applied(o) && path !in repo {
        repo := repo[path := Codebase(version, map[], map[])];
      }
      accepted, err := o == Fine, Lost(o);
    }

    method CreateCodebase(path: string, net: Net, version: string)
        returns (success: bool, codebase: Option<Codebase>, err: bool)
      modifies this
      ensures repo == Put(old(repo), path, Created(At(old(repo), path), net(BatchPost), version))
      ensures err == (!net(BatchPost).Fine? || Lost(net(BatchGet))) && success == !err
      ensures codebase == if net(BatchPost).Fine? then Seen(At(repo, path), net(BatchGet)) else None
    {
      success, codebase, err := false, None, false;
      var accepted, lost := Post(path, net(BatchPost), version);
      if !lost && accepted {
        codebase, success, err := Get(path, net(BatchGet));
      } else {
        err := true;
      }
    }

    method CommitCodebase(path: string, o: Outcome, version: string) returns (success: bool, err: bool)
      modifies this
      ensures var r := Commit(At(old(repo), path), o, version);
              repo == Put(old(repo), path, r.server) && success == r.success && err == r.err
    {
      PutAt(repo, path, None);
      success, err := false, true;
      var etag := ParseUint(version, MAX_U64);
      if etag.Uint? {
        var existed := path in repo;
        repo := Put(repo, path, Committed(At(repo, path), o, Decimal(Plus(etag.value))));
        if o == Fine && existed {
          success, err := true, false;
        }
      }
    }

    method UpsertFile(path: string, o: Outcome, item: Item) returns (success: bool, err: bool)
      requires !item.obsolete
      modifies this
      ensures repo == Put(old(repo), path, Edited(At(old(repo), path), o, item))
      ensures success == (o.Fine? && path in old(repo)) && err == !success
    {
      PutAt(repo, path, None);
      success := o == Fine && path in repo;
      err := !success;
      if Applied(o) && path in repo {
        repo := repo[path := repo[path].(edited := repo[path].edited[item.path := item.content])];
      }
    }

    method DeleteFile(path: string, o: Outcome, item: Item) returns (err: bool)
      requires item.obsolete
      modifies this
      ensures repo == Put(old(repo), path, Edited(At(old(repo), path), o, item))
      ensures err == !(o.Fine? && path in old(repo))
    {
      PutAt(repo, path, None);
      err := !(o == Fine && path in repo);
      if Applied(o) && path in repo {
        repo := repo[path := repo[path].(edited := repo[path].edited - {item.path})];
      }
    }

    /** The loop over a batch's items. */
    method EditFiles(path: string, net: Net, items: seq<Item>) returns (ok: bool)
      modifies this
      ensures var (server, sent) := Edits(At(old(repo), path), net, items);
              repo == Put(old(repo), path, server) && ok == sent
    {
      ghost var start := At(repo, path);
      PutAt(repo, path, start);
      for i := 0 to |items|
        invariant Edits(start, net, items[..i]) == (At(repo, path), true)
        invariant repo == Put(old(repo), path, At(repo, path))
      {
        EditsSnoc(start, net, items, i);
        PutAt(old(repo), path, At(repo, path));
        ghost var next := Edited(At(repo, path), net(Upload(i)), items[i]);
        PutAt(repo, path, next);
        if items[i].obsolete {
          var err := DeleteFile(path, net(Upload(i)), items[i]);
        } else {
          var success, err := UpsertFile(path, net(Upload(i)), items[i]);
          if err || !success {
            EditsStop(start, net, items, i + 1);
            return false;
          }
        }
      }
      assert items[..|items|] == items;
      return true;
    }

    method Delete(path: string, o: Outcome)
      modifies this
      ensures repo == Put(old(repo), path, Removed(At(old(repo), path), o))
    {
      PutAt(repo, path, None);
      if Applied(o) {
        repo := repo - {path};
      }
    }

    method DeriveCodebase(path: string, net: Net, version: string) returns (success: bool, err: bool, crashed: bool)
      modifies this
      ensures var r := Derive(At(old(repo), path), net, version);
              repo == Put(old(repo), path, r.server) && r == Reply(r.server, success, err, crashed)
    {
      PutAt(repo, path, None);
      crashed := false;
      var codebase;
      codebase, success, err := Get(path, net(DeriveCheck));
      if err || codebase.Some? {
        return;
      }
      PutAt(repo, path, Created(At(repo, path), net(DerivePost), version));
      var accepted, lost := Post(path, net(DerivePost), version);
      if lost {
        return false, true, false;
      }
      success := true;
      if !accepted {
        return true, true, false;
      }
      codebase, success, err := Get(path, net(DeriveGet));
      if err {
        return;
      }
      if codebase.None? {
        crashed := true;
        return;
      }
      success, err := CommitCodebase(path, net(DeriveCommit), codebase.value.version);
    }

    /** One round of the loop of `Batch`. */
    method SubmitFiles(net: Net, version: string, files: Files) returns (success: bool, err: bool, goesOn: bool)
      modifies this
      ensures Submitted(old(repo), net, version, files) == Progress(repo, success, err, goesOn)
    {
      var path, codebase := files.path, None;
      PutAt(repo, path, None);
      codebase, success, err := Get(path, net(BatchCheck));
      if err {
        return success, err, false;
      }
      if codebase.None? {
        PutAt(repo, path, Created(At(repo, path), net(BatchPost), version));
        success, codebase, err := CreateCodebase(path, net, version);
        if err || !success || codebase.None? {
          return success, err, false;
        }
      }
      ghost var found := At(repo, path);
      PutAt(repo, path, Edits(found, net, files.items).0);
      var ok := EditFiles(path, net, files.items);
      if !ok {
        return false, true, false;
      }
      success, err := CommitCodebase(path, net(BatchCommit), codebase.value.version);
      goesOn := success && !err;
    }

    method SubmitBatch(nets: nat -> Net, version: string, all: seq<Files>) returns (success: bool, err: bool)
      modifies this
      ensures var done := Batches(old(repo), nets, version, all);
              repo == done.repo && success == done.success && err == done.err
    {
      success, err := false, false;
      for i := 0 to |all|
        invariant Batches(old(repo), nets, version, all[..i]) == Progress(repo, success, err, true)
      {
        var goesOn;
        BatchesSnoc(old(repo), nets, version, all, i);
        success, err, goesOn := SubmitFiles(nets(i), version, all[i]);
        if !goesOn {
          BatchesStop(old(repo), nets, version, all, i + 1);
          return;
        }
      }
      assert all[..|all|] == all;
    }

    /** `publishSidecarConf` for a configuration whose hash is `v`; returns the proxy's new ETag. */
    method PublishSidecarConf(path: string, etag: U64, v: U64, conf: string, net: Net)
        returns (newTag: U64, crashed: bool)
      modifies this
      ensures var (server, tag, crash) := Published(At(old(repo), path), etag, v, conf, net);
              repo == Put(old(repo), path, server) && newTag == tag && crashed == crash
    {
      newTag, crashed := etag, false;
      PutAt(repo, path, None);
      if v != etag {
        var success, err;
        ghost var d := Derive(At(repo, path), net, Decimal(Minus(v, 2)));
        PutAt(repo, path, d.server);
        success, err, crashed := DeriveCodebase(path, net, Decimal(Minus(v, 2)));
        if crashed {
          return;
        }
        if success {
          var files := Files(path, [Item(CONFIG, conf, false)]);
          BatchesOne(repo, _ => net, Decimal(Minus(v, 1)), files);
          PutAt(old(repo), path, Batch(d.server, net, Decimal(Minus(v, 1)), files.items).server);
          success, err := SubmitBatch(_ => net, Decimal(Minus(v, 1)), [files]);
        }
        if err {
          Delete(path, net(Cleanup));
        } else {
          newTag := v;
        }
      }
    }
  }

  /** A call commits its batches in order up to the first that does not finish, and leaves every base path of the
      later ones alone: they are neither created nor changed, although an overlooked codebase is no error. */
  lemma {:induction false} LaterBatchesUntouched(repo: Repo, nets: nat -> Net, version: string, all: seq<Files>, i: nat,
                                                 path: string)
    requires i <= |all| && !Batches(repo, nets, version, all[..i]).goesOn
    requires forall j | 0 <= j < i :: all[j].path != path
    ensures At(Batches(repo, nets, version, all).repo, path) == At(repo, path)
  {
    BatchesStop(repo, nets, version, all, i);
    OnlyOwnPaths(repo, nets, version, all[..i], path);
  }

  lemma {:induction false} OnlyOwnPaths(repo: Repo, nets: nat -> Net, version: string, all: seq<Files>, path: string)
    requires forall files <- all :: files.path != path
    ensures At(Batches(repo, nets, version, all).repo, path) == At(repo, path)
    decreases |all|
  {
    if all != [] {
      var n := |all| - 1;
      OnlyOwnPaths(repo, nets, version, all[..n], path);
      assert all[n] in all;
    }
  }

  // ----- Without faults -----

  predicate FaultFree(net: Net) {
    && net(DeriveCheck).Fine? && net(DerivePost).Fine? && net(DeriveGet).Fine? && net(DeriveCommit).Fine?
    && net(BatchCheck).Fine? && net(BatchPost).Fine? && net(BatchGet).Fine? && net(Upload(0)).Fine?
    && net(BatchCommit).Fine? && net(Cleanup).Fine?
  }

  lemma PlusMinus(n: nat, v: U64)
    requires n <= MAX_U64
    ensures Plus(n) == v <==> n == Minus(v, 1)
  {}

  /** The one version from which a commit asks for `v` is the one below it. */
  lemma NextIs(version: string, v: U64)
    ensures NextVersion(version) == Some(Decimal(v)) <==> ParseUint(version, MAX_U64) == Uint(Minus(v, 1))
  {
    var parsed := ParseUint(version, MAX_U64);
    if parsed.Uint? {
      PlusMinus(parsed.value, v);
      if Decimal(Plus(parsed.value)) == Decimal(v) {
        DecimalInjective(Plus(parsed.value), v);
      }
    }
  }

  lemma NextOfDecimal(v: U64)
    ensures NextVersion(Decimal(Minus(v, 1))) == Some(Decimal(v))
  {
    DecimalRoundTrip(Minus(v, 1), MAX_U64);
    NextIs(Decimal(Minus(v, 1)), v);
  }

  lemma DeriveFresh(net: Net, version: string)
    requires FaultFree(net) && NextVersion(version).Some?
    ensures Derive(None, net, version)
            == Reply(Some(Codebase(NextVersion(version).value, map[], map[])), true, false, false)
  {}

  /** The configuration file put among others. */
  function With(files: map<string, string>, conf: string): map<string, string> {
    files[CONFIG := conf]
  }

  lemma BatchExisting(c: Codebase, net: Net, version: string, conf: string)
    requires FaultFree(net) && NextVersion(c.version).Some?
    ensures var files := With(c.edited, conf);
            Batch(Some(c), net, version, [Item(CONFIG, conf, false)])
            == Reply(Some(Codebase(NextVersion(c.version).value, files, files)), true, false, false)
  {
    EditsOne(Some(c), net, Item(CONFIG, conf, false));
  }

  /** A new codebase ends at exactly the hash, for every 64-bit hash: derived two below, committed twice. */
  lemma FirstPublish(etag: U64, v: U64, conf: string, net: Net)
    requires FaultFree(net) && etag != v
    ensures var files := With(map[], conf);
            Published(None, etag, v, conf, net) == (Some(Codebase(Decimal(v), files, files)), v, false)
  {
    var below := Minus(v, 1);
    assert Minus(below, 1) == Minus(v, 2);
    NextOfDecimal(below);
    DeriveFresh(net, Decimal(Minus(v, 2)));
    NextOfDecimal(v);
    BatchExisting(Codebase(Decimal(below), map[], map[]), net, Decimal(below), conf);
  }

  /** An existing codebase goes up by one from wherever it was; one whose version is no number is deleted. */
  lemma NextPublish(c: Codebase, etag: U64, v: U64, conf: string, net: Net)
    requires FaultFree(net) && etag != v
    ensures var next, files := NextVersion(c.version), With(c.edited, conf);
            Published(Some(c), etag, v, conf, net) ==
            if next.Some? then (Some(Codebase(next.value, files, files)), v, false) else (None, etag, false)
  {
    EditsOne(Some(c), net, Item(CONFIG, conf, false));
  }

  /** The published version is the hash exactly when there was no codebase, or it stood at the hash less one. */
  lemma VersionExactly(server: Server, etag: U64, v: U64, conf: string, net: Net)
    requires FaultFree(net) && etag != v
    ensures var after := Published(server, etag, v, conf, net).0;
            (after.Some? && after.value.version == Decimal(v)) <==>
            (server.None? || ParseUint(server.value.version, MAX_U64) == Uint(Minus(v, 1)))
  {
    if server.None? {
      FirstPublish(etag, v, conf, net);
    } else {
      NextPublish(server.value, etag, v, conf, net);
      NextIs(server.value.version, v);
    }
  }

  /** Every publication over an existing codebase changes its version, so the proxies notice it. */
  lemma VersionChanges(c: Codebase, etag: U64, v: U64, conf: string, net: Net)
    requires FaultFree(net) && etag != v && NextVersion(c.version).Some?
    ensures var after := Published(Some(c), etag, v, conf, net).0;
            after.Some? && after.value.version != c.version
  {
    NextPublish(c, etag, v, conf, net);
    DecimalRoundTrip(Plus(ParseUint(c.version, MAX_U64).value), MAX_U64);
  }

  // ----- With faults -----

  /** The batch finds no codebase, creates it, and then is not shown it: it stops without an error. */
  predicate Overlooked(server: Server, net: Net) {
    && !Lost(net(BatchCheck)) && Seen(server, net(BatchCheck)).None?
    && net(BatchPost).Fine? && net(BatchGet).BadStatus?
  }

  predicate Holds(server: Server, conf: string) {
    server.Some? && CONFIG in server.value.live && server.value.live[CONFIG] == conf
        && server.value.edited == server.value.live
  }

  lemma BatchExactly(server: Server, net: Net, version: string, conf: string)
    ensures var r := Batch(server, net, version, [Item(CONFIG, conf, false)]);
            && (!r.err && !Overlooked(server, net) ==> Holds(r.server, conf))
            && (Overlooked(server, net) ==> !r.err && r.server == Created(server, Fine, version))
  {
    EditsOne(Opened(server, net, version).0.server, net, Item(CONFIG, conf, false));
  }

  /** When a moved ETag is right: it names a configuration that is committed, unless the batch overlooked its codebase
      and that did not hold the configuration already. There the ETag moves to a codebase as it was, or a new one
      without files. */
  lemma EtagExactly(server: Server, etag: U64, v: U64, conf: string, net: Net)
    requires v != etag
    ensures var (after, tag, _) := Published(server, etag, v, conf, net);
            var d := Derive(server, net, Decimal(Minus(v, 2)));
            var overlooks := !d.crashed && d.success && Overlooked(d.server, net);
            && (tag == v || tag == etag)
            && ((tag == v ==> Holds(after, conf)) <==> (overlooks ==> Holds(d.server, conf)))
            && (overlooks ==> tag == v && after == Created(d.server, Fine, Decimal(Minus(v, 1))))
  {
    var d := Derive(server, net, Decimal(Minus(v, 2)));
    BatchExactly(d.server, net, Decimal(Minus(v, 1)), conf);
  }

  // ----- Which publications go through -----

  predicate IsNumeric(version: string) {
    version != "" && IsDigits(version) && DigitsValue(version) <= MAX_U64
  }

  /** A commit asks for one more than a number of 64 bits, and for nothing else. */
  lemma {:induction false} NextVersionExactly(version: string)
    ensures NextVersion(version).Some? <==> IsNumeric(version)
    ensures IsNumeric(version) ==>
              NextVersion(version).value
              == Decimal(if DigitsValue(version) == MAX_U64 then 0 else DigitsValue(version) + 1)
  {
    if IsNumeric(version) {
      PlusOne(DigitsValue(version));
    }
  }

  lemma PlusOne(n: nat)
    requires n <= MAX_U64
    ensures Plus(n) == if n == MAX_U64 then 0 else n + 1
  {}

  /** The derivation lets the batch go on over an existing codebase: it is seen; or it is not seen and its creation is
      refused; or it is not seen, accepted again, seen then, and committed. */
  predicate DeriveGoesOn(c: Codebase, net: Net) {
    || net(DeriveCheck) == Fine
    || (net(DeriveCheck) == BadStatus && net(DerivePost) == BadStatus)
    || (net(DeriveCheck) == BadStatus && net(DerivePost) == Fine && net(DeriveGet) == Fine && IsNumeric(c.version)
        && net(DeriveCommit) == Fine)
  }

  /** The batch ends without an error: the codebase is seen, at once or after it is accepted again, and the file is
      uploaded and committed; or it is overlooked. */
  predicate BatchGoesOn(c: Codebase, net: Net) {
    || (net(BatchCheck) == BadStatus && net(BatchPost) == Fine && net(BatchGet) == BadStatus)
    || ((net(BatchCheck) == Fine || (net(BatchCheck) == BadStatus && net(BatchPost) == Fine && net(BatchGet) == Fine))
        && net(Upload(0)) == Fine && IsNumeric(c.version) && net(BatchCommit) == Fine)
  }

  lemma DeriveExactly(c: Codebase, net: Net, version: string)
    ensures var d := Derive(Some(c), net, version);
            && (d.success && !d.crashed <==> DeriveGoesOn(c, net))
            && (!d.success && !d.crashed ==> d.err)
            && d.server.Some? && (IsNumeric(d.server.value.version) <==> IsNumeric(c.version))
  {
    NextIsNumeric(c.version);
  }

  lemma {:induction false} NextIsNumeric(version: string)
    ensures NextVersion(version).Some? <==> IsNumeric(version)
    ensures IsNumeric(version) ==> IsNumeric(NextVersion(version).value)
  {
    NextVersionExactly(version);
    if IsNumeric(version) {
      DecimalValue(if DigitsValue(version) == MAX_U64 then 0 else DigitsValue(version) + 1);
    }
  }

  /** Over an existing codebase a publication is recorded exactly when both its halves go on. */
  lemma RecordedExactly(c: Codebase, etag: U64, v: U64, conf: string, net: Net)
    requires v != etag
    ensures Published(Some(c), etag, v, conf, net).1 == v <==> DeriveGoesOn(c, net) && BatchGoesOn(c, net)
  {
    var d := Derive(Some(c), net, Decimal(Minus(v, 2)));
    DeriveExactly(c, net, Decimal(Minus(v, 2)));
    NextVersionExactly(d.server.value.version);
    EditsOne(d.server, net, Item(CONFIG, conf, false));
  }

  /** A publication dereferences a codebase it was not shown exactly when the derived codebase was created and
      then could not be read back. */
  lemma CrashExactly(server: Server, etag: U64, v: U64, conf: string, net: Net)
    ensures Published(server, etag, v, conf, net).2 <==>
            && v != etag && !Lost(net(DeriveCheck)) && Seen(server, net(DeriveCheck)).None?
            && net(DerivePost).Fine? && net(DeriveGet).BadStatus?
  {}

  /** Two refused reads are enough to record a configuration as published that was never uploaded. */
  lemma EtagWithoutCommit(c: Codebase, etag: U64, v: U64, conf: string, net: Net)
    requires v != etag && net(DeriveCheck).Fine? && net(BatchPost).Fine?
    requires net(BatchCheck).BadStatus? && net(BatchGet).BadStatus?
    ensures Published(Some(c), etag, v, conf, net) == (Some(c), v, false)
  {}

  /** Attempts to publish one configuration, over one network after another. */
  function Attempts(server: Server, etag: U64, v: U64, conf: string, nets: seq<Net>): (Server, U64)
    decreases |nets|
  {
    if nets == [] then (server, etag)
    else
      var (s, t, _) := Published(server, etag, v, conf, nets[0]);
      Attempts(s, t, v, conf, nets[1..])
  }

  lemma {:induction false} SameHashIsSkipped(server: Server, etag: U64, conf: string, nets: seq<Net>)
    ensures Attempts(server, etag, etag, conf, nets) == (server, etag)
    decreases |nets|
  {
    if nets != [] {
      SameHashIsSkipped(server, etag, conf, nets[1..]);
    }
  }

  /** When a publication leaves no codebase: exactly when it failed and its clean-up was carried out. The ETag then
      still names the configuration before, so going back to that publishes nothing, however often and whatever the
      network does. */
  lemma RevertExactly(c: Codebase, etag: U64, v: U64, conf: string, net: Net, before: string, nets: seq<Net>)
    requires v != etag
    ensures var (after, tag, crashed) := Published(Some(c), etag, v, conf, net);
            && (after.None? <==> tag == etag && !crashed && Applied(net(Cleanup)))
            && (tag == etag ==> Attempts(after, tag, etag, before, nets) == (after, etag))
  {
    var (after, tag, crashed) := Published(Some(c), etag, v, conf, net);
    var d := Derive(Some(c), net, Decimal(Minus(v, 2)));
    EditsOne(Opened(d.server, net, Decimal(Minus(v, 1))).0.server, net, Item(CONFIG, conf, false));
    SameHashIsSkipped(after, etag, before, nets);
  }

  /** So a refused upload is enough: the codebase that was published before is gone and does not come back. */
  lemma RevertIsSkipped(etag: U64, v1: U64, conf1: string, net1: Net, v2: U64, conf2: string, net2: Net,
                        nets: seq<Net>)
    requires etag != v1 && v1 != v2 && FaultFree(net1)
    requires net2(DeriveCheck).Fine? && net2(BatchCheck).Fine? && net2(Upload(0)).BadStatus? && net2(Cleanup).Fine?
    ensures var w1 := Published(None, etag, v1, conf1, net1);
            var w2 := Published(w1.0, w1.1, v2, conf2, net2);
            Holds(w1.0, conf1) && w2 == (None, v1, false) && Attempts(w2.0, w2.1, v1, conf1, nets) == (None, v1)
  {
    FirstPublish(etag, v1, conf1, net1);
    var w1 := Published(None, etag, v1, conf1, net1);
    EditsOne(w1.0, net2, Item(CONFIG, conf2, false));
    SameHashIsSkipped(None, v1, conf1, nets);
  }

  /** None of the attempts crashes or overlooks its codebase. */
  predicate Clean(server: Server, etag: U64, v: U64, conf: string, nets: seq<Net>)
    decreases |nets|
  {
    nets != [] ==>
      var (s, t, crashed) := Published(server, etag, v, conf, nets[0]);
      && !crashed && (v != etag ==> !Overlooked(Derive(server, nets[0], Decimal(Minus(v, 2))).server, nets[0]))
      && Clean(s, t, v, conf, nets[1..])
  }

  predicate Settled(server: Server, etag: U64, v: U64, conf: string) {
    etag == v ==> Holds(server, conf)
  }

  lemma {:induction false} AttemptsSettle(server: Server, etag: U64, v: U64, conf: string, nets: seq<Net>)
    requires Clean(server, etag, v, conf, nets) && Settled(server, etag, v, conf)
    ensures var w := Attempts(server, etag, v, conf, nets);
            Settled(w.0, w.1, v, conf)
    decreases |nets|
  {
    if nets != [] {
      if v != etag {
        EtagExactly(server, etag, v, conf, nets[0]);
      }
      var (s, t, _) := Published(server, etag, v, conf, nets[0]);
      AttemptsSettle(s, t, v, conf, nets[1..]);
    }
  }

  /** Recovery: after any clean attempts, however they failed and whatever was on the server, two publications
      without faults leave the configuration committed and recorded. */
  lemma Recovers(server: Server, etag: U64, v: U64, conf: string, nets: seq<Net>, net: Net)
    requires etag != v && Clean(server, etag, v, conf, nets) && FaultFree(net)
    ensures var w := Attempts(server, etag, v, conf, nets);
            var w1 := Published(w.0, w.1, v, conf, net);
            var w2 := Published(w1.0, w1.1, v, conf, net);
            Holds(w2.0, conf) && w2.1 == v
  {
    AttemptsSettle(server, etag, v, conf, nets);
    var w := Attempts(server, etag, v, conf, nets);
    if w.1 != v {
      if w.0.Some? {
        NextPublish(w.0.value, w.1, v, conf, net);
      }
      FirstPublish(w.1, v, conf, net);
    }
  }
}
