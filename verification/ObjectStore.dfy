/** The content-addressed store as files on disk, some of which may have been damaged. */
module ObjectStore {
  import opened Bytes
  import opened Envelope
  import opened Daemon

  // What a file decodes to; None when it does not decode.
  type File = Option<Envelope>

  predicate Sound(h: Hash, f: File) {
    f.Some? && ContentBytes(f.value) == h
  }

  /** The objects the store can serve. */
  function Objects(files: map<Hash, File>): map<Hash, Envelope> {
    map h | h in files && Sound(h, files[h]) :: files[h].value
  }

  predicate Damaged(files: map<Hash, File>, h: Hash) {
    h in files && !Sound(h, files[h])
  }

  /** What pruning keeps: files that decode to something within its age limit. */
  predicate Kept(f: File, maxAge: int, now: int) {
    f.Some? && now - f.value.timestamp <= AgeLimit(f.value.kind, maxAge)
  }

  class Store {
    var files: map<Hash, File>

    constructor ()
      ensures files == map[]
    {
      files := map[];
    }

    /** A file that is there is left alone, even a damaged one: only then does Put leave its object unserved. */
    method Put(env: Envelope) returns (existed: bool)
      modifies this
      ensures existed == (ContentBytes(env) in old(files))
      ensures files == if existed then old(files) else old(files)[ContentBytes(env) := Some(env)]
      ensures Objects(files) == if Damaged(old(files), ContentBytes(env)) then Objects(old(files))
                                else Daemon.Put(Objects(old(files)), env)
      ensures ContentBytes(env) in Objects(files) <==> !Damaged(old(files), ContentBytes(env))
    {
      var h := ContentBytes(env);
      existed := h in files;
      if !existed {
        files := files[h := Some(env)];
      }
    }

    /** A damaged file is removed and reported as not found. */
    method Get(h: Hash) returns (r: Option<Envelope>)
      modifies this
      ensures r == if h in Objects(old(files)) then Some(Objects(old(files))[h]) else None
      ensures files == if Damaged(old(files), h) then old(files) - {h} else old(files)
      ensures Objects(files) == Objects(old(files)) && !Damaged(files, h)
    {
      if h !in files {
        return None;
      }
      r := files[h];
      if r.None? || ContentBytes(r.value) != h {
        files := files - {h};
        r := None;
      }
    }

    method Delete(h: Hash)
      modifies this
      ensures files == old(files) - {h} && Objects(files) == Objects(old(files)) - {h}
    {
      files := files - {h};
    }

    /** The prune walk visits the files one by one. */
    method Prune(maxAge: int, now: int) returns (removed: nat)
      modifies this
      ensures forall h :: h in files <==> h in old(files) && Kept(old(files)[h], maxAge, now)
      ensures forall h :: h in files ==> files[h] == old(files)[h]
      ensures removed + |files| == |old(files)|
      ensures Objects(files) == Daemon.Prune(Objects(old(files)), maxAge, now)
    {
      removed := 0;
      var todo := files.Keys;
      while todo != {}
        invariant todo <= files.Keys <= old(files).Keys
        invariant forall h :: h in files ==> files[h] == old(files)[h]
        invariant forall h :: h in old(files) && h !in todo ==> (h in files <==> Kept(old(files)[h], maxAge, now))
        invariant removed + |files| == |old(files)|
        decreases |todo|
      {
        var h :| h in todo;
        todo := todo - {h};
        var file := files[h];
        var gone := file.None?;
        if file.Some? {
          var limit := maxAge;
          if file.value.kind == MSG_STATUS && STATUS_MAX_AGE < limit {
            limit := STATUS_MAX_AGE;
          }
          gone := now - file.value.timestamp > limit;
        }
        if gone {
          ghost var before := files;
          files := files - {h};
          assert files.Keys == before.Keys - {h};
          assert |files.Keys| == |before.Keys| - 1;
          removed := removed + 1;
        }
      }
    }
  }
}
