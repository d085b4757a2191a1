/** The publication protocol of source/daemon/ue4_sdk.c: write a temporary file, then rename it. */
module SdkDump {
  import opened SchemaRoundTrip
  import opened SchemaText
  import opened SchemaWriter
  import opened Wrappers

  /** What ue4r_iterate_classes does: the classes it hands to the callback, then its result. */
  datatype Walk = Walk(yielded: seq<Class>, count: int)

  /**
   * How the calls of a dump come out: opening the log, rm_task_acquire, aslr_get_slide, ue4r_init,
   * opening the temporary file, what its stream does, rename and remove.
   */
  datatype Outcomes = Outcomes(log: bool, port: bool, slide: bool, init: bool, open: bool, medium: Medium,
                               rename: bool, remove: bool)

  /** The part of the machine the dump touches. */
  class Host {
    var output: Option<string>    // UE4_SDK_OUTPUT_PATH
    var pending: Option<string>   // UE4_SDK_OUTPUT_PATH ".tmp"
    var logOpen: bool             // g_log != NULL
    var acquired: nat             // task ports taken and given back
    var released: nat
    var renames: nat              // successful renames onto the output path

    constructor (output: Option<string>, pending: Option<string>)
      ensures this.output == output && this.pending == pending && !logOpen
      ensures acquired == released == renames == 0
    {
      this.output, this.pending, logOpen := output, pending, false;
      acquired, released, renames := 0, 0, 0;
    }

    method Rename(ok: bool)
      modifies this`output, this`pending, this`renames
      ensures ok ==> pending == None && output == old(pending) && renames == old(renames) + 1
      ensures !ok ==> pending == old(pending) && output == old(output) && renames == old(renames)
    {
      if ok {
        output, pending, renames := pending, None, renames + 1;
      }
    }

    /** remove(pending_path), whose result is ignored. */
    method RemovePending(ok: bool)
      modifies this`pending
      ensures pending == if ok then None else old(pending)
    {
      if ok { pending := None; }
    }
  }

  /** The callback loop: every yielded class is offered to the writer. */
  method StreamWalk(writer: Writer, walk: Walk)
    requires writer.Valid() && writer.written == []
    requires writer.out.error ==> writer.out.refused < |StreamText(walk.yielded)|
    modifies writer, writer.out
    ensures writer.Valid()
    ensures !writer.out.error ==> writer.written == walk.yielded
    ensures writer.out.error ==> writer.out.refused < |StreamText(walk.yielded)|
  {
    hide Header, StreamClasses;
    var i := 0;
    while i < |walk.yielded|
      invariant i <= |walk.yielded| && writer.Valid()
      invariant !writer.out.error ==> writer.written == walk.yielded[..i]
      invariant writer.out.error ==> writer.out.refused < |StreamText(walk.yielded)|
    {
      assert walk.yielded[..i + 1] == walk.yielded[..i] + [walk.yielded[i]];
      StreamGrows(walk.yielded, i + 1);
      var _ := writer.Add(walk.yielded[i]);
      i := i + 1;
    }
    assert walk.yielded[..i] == walk.yielded;
  }

  lemma {:induction false} StreamGrows(cs: seq<Class>, n: nat)
    requires n <= |cs|
    ensures |StreamClasses(cs[..n])| <= |StreamClasses(cs)|
    decreases |cs| - n
  {
    hide StreamClasses;
    if n < |cs| {
      assert cs[..n + 1] == cs[..n] + [cs[n]];
      StreamClassesSnoc(cs[..n], cs[n]);
      StreamGrows(cs, n + 1);
    } else {
      assert cs[..n] == cs;
    }
  }

  /** The whole stream of the yielded classes is taken, flushed and closed. */
  predicate Taken(medium: Medium, yielded: seq<Class>)
  {
    (forall k: nat | k < |StreamText(yielded)| :: medium.takes(k)) && medium.flush && medium.close
  }

  /** Opens the temporary file, streams the classes and closes it; the count, or None if it cannot open. */
  method WritePending(host: Host, walk: Walk, o: Outcomes) returns (written: Option<int>)
    modifies host`pending
    ensures written.Some? <==> o.open
    ensures o.open ==> host.pending.Some?
    ensures o.open && Taken(o.medium, walk.yielded) ==>
              written.value == |walk.yielded| && host.pending == Some(StreamText(walk.yielded))
    ensures o.open && !Taken(o.medium, walk.yielded) ==> written.value == -1
  {
    hide Header, StreamClasses;
    if !o.open {
      host.pending := *;   // the open may have created an empty file before it failed
      return None;
    }
    var out := new Stream(o.medium);
    var writer := new Writer(out);
    StreamWalk(writer, walk);
    var n := writer.Close();
    host.pending := Some(out.data);
    return Some(n);
  }

  /** All a dump needs: every call succeeds, and the walk's count is that of the classes it yielded. */
  predicate AllWell(o: Outcomes, walk: Walk)
  {
    && o.log && o.port && o.slide && o.init && o.open && Taken(o.medium, walk.yielded) && o.rename
    && walk.count == |walk.yielded| > 0
  }

  /** ue4_sdk_generate, with its cleanup labels as nested calls. */
  method Generate(host: Host, walk: Walk, o: Outcomes) returns (result: int)
    modifies host
    ensures result == if AllWell(o, walk) then 0 else -1
    // the output is replaced exactly then, by a whole dump of at least one class
    ensures host.renames == old(host.renames) + (if result == 0 then 1 else 0)
    ensures result == 0 ==> walk.yielded != [] && host.output == Some(StreamText(walk.yielded)) && host.pending == None
    ensures result == 0 ==> ReadSchema(host.output.value) == Some(walk.yielded)
    ensures result == -1 ==> host.output == old(host.output)
    // and otherwise the temporary file is removed again, if it can be
    ensures o.log && o.port && o.slide && o.init && o.remove ==> host.pending == None
    ensures !(o.log && o.port && o.slide && o.init) ==> host.pending == old(host.pending)
    // a Mach port is given back exactly as often as it was taken, at most once
    ensures host.acquired - old(host.acquired) == host.released - old(host.released) == if o.log && o.port then 1 else 0
    ensures !host.logOpen
  {
    hide StreamText, ReadSchema, Taken;
    if !o.log {
      host.logOpen := false;
      return -1;
    }
    host.logOpen := true;
    if !o.port {
      result := -1;
    } else {
      host.acquired := host.acquired + 1;
      if !o.slide || !o.init {
        result := -1;
      } else {
        result := DumpClasses(host, walk, o);
      }
      host.released := host.released + 1;
    }
    host.logOpen := false;
  }

  /** From ue4j_writer_open to the removal of the temporary file. */
  method DumpClasses(host: Host, walk: Walk, o: Outcomes) returns (result: int)
    modifies host`output, host`pending, host`renames
    ensures result == 0 || result == -1
    ensures result == 0 <==>
      o.open && Taken(o.medium, walk.yielded) && o.rename && walk.count == |walk.yielded| > 0
    ensures host.renames == old(host.renames) + (if result == 0 then 1 else 0)
    ensures result == 0 ==> host.output == Some(StreamText(walk.yielded)) && host.pending == None
    ensures result == 0 ==> ReadSchema(host.output.value) == Some(walk.yielded)
    ensures result == -1 ==> host.output == old(host.output)
    ensures o.remove ==> host.pending == None
  {
    hide StreamText, ReadSchema, BatchText, Taken;
    var written := WritePending(host, walk, o);
    if written.None? {
      host.RemovePending(o.remove);
      return -1;
    }
    result := -1;
    if walk.count > 0 && written.value == walk.count {
      host.Rename(o.rename);
      if o.rename { result := 0; }
    }
    if result != 0 {
      host.RemovePending(o.remove);
    }
    RoundTrip(walk.yielded);
  }
}
