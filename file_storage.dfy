/**
 * The destination storage of an export: a directory of configuration files,
 * one per name. A write creates or fully replaces the file of that name.
 */
module Storage {
  import opened ConfigData

  /** One call `$destination_storage->write($name, $data)`. */
  datatype WriteOp = WriteOp(name: string, data: Data)

  /** The names a write log touches. */
  function Names(log: seq<WriteOp>): set<string> {
    set i | 0 <= i < |log| :: log[i].name
  }

  /** The files after the writes of `log`, in order, starting from `base`. */
  function Replay(base: map<string, Data>, log: seq<WriteOp>): (files: map<string, Data>)
    ensures files.Keys == base.Keys + Names(log)
    ensures forall n :: n in base && n !in Names(log) ==> files[n] == base[n]
  {
    if log == [] then base
    else
      var last := log[|log| - 1];
      assert Names(log) == Names(log[..|log| - 1]) + {last.name};
      Replay(base, log[..|log| - 1])[last.name := last.data]
  }

  lemma {:induction false} NamesConcat(a: seq<WriteOp>, b: seq<WriteOp>)
    ensures Names(a + b) == Names(a) + Names(b)
  {
    forall n | n in Names(a + b) ensures n in Names(a) + Names(b) {
      var i :| 0 <= i < |a + b| && (a + b)[i].name == n;
      if i >= |a| { assert b[i - |a|].name == n; }
    }
    forall n | n in Names(a) + Names(b) ensures n in Names(a + b) {
      if n in Names(a) {
        var i :| 0 <= i < |a| && a[i].name == n;
        assert (a + b)[i].name == n;
      } else {
        var i :| 0 <= i < |b| && b[i].name == n;
        assert (a + b)[|a| + i].name == n;
      }
    }
  }

  lemma NamesSingleton(w: WriteOp)
    ensures Names([w]) == {w.name}
  {
    assert [w][0] == w;
  }

  /** The last write of a name decides that name's file: a later write replaces an earlier one. */
  lemma {:induction false} ReplayLastWriteWins(base: map<string, Data>, log: seq<WriteOp>, k: nat)
    requires k < |log|
    requires forall j :: k < j < |log| ==> log[j].name != log[k].name
    ensures log[k].name in Replay(base, log) && Replay(base, log)[log[k].name] == log[k].data
  {
    if k < |log| - 1 {
      ReplayLastWriteWins(base, log[..|log| - 1], k);
    }
  }

  /** Replaying two logs one after the other is replaying their concatenation. */
  lemma {:induction false} ReplayConcat(base: map<string, Data>, a: seq<WriteOp>, b: seq<WriteOp>)
    ensures Replay(base, a + b) == Replay(Replay(base, a), b)
    decreases |b|
  {
    if b == [] {
      assert a + b == a;
    } else {
      assert (a + b)[..|a + b| - 1] == a + b[..|b| - 1];
      ReplayConcat(base, a, b[..|b| - 1]);
    }
  }

  /** A log that grew from `start + done` by `added` is `start` followed by `done + added`. */
  lemma LogStep(start: seq<WriteOp>, before: seq<WriteOp>, after: seq<WriteOp>, done: seq<WriteOp>, added: seq<WriteOp>)
    requires before == start + done && after == before + added
    ensures after == start + (done + added)
  {
  }

  /**
   * FileStorage over a destination directory, as far as the export uses it: the
   * files the directory held when it was opened, and the writes made since, in
   * order. The files it holds now are a function of the two.
   */
  class FileStorage {
    const initial: map<string, Data>
    var log: seq<WriteOp>

    /** The configuration files now in the directory, by name. */
    function Files(): map<string, Data>
      reads this
    {
      Replay(initial, log)
    }

    /** `new FileStorage($path)` over a directory holding `existing`. */
    constructor (existing: map<string, Data>)
      ensures initial == existing && log == []
      ensures Files() == existing
    {
      initial := existing;
      log := [];
    }

    /** Creates or fully replaces the file of `name`. */
    method Write(name: string, data: Data)
      modifies this
      ensures log == old(log) + [WriteOp(name, data)]
      ensures Files() == old(Files())[name := data]
    {
      log := log + [WriteOp(name, data)];
      assert log[..|log| - 1] == old(log);
    }
  }
}
