/** Upload validation: a MIME whitelist per entry, de-duplication by content digest that keeps
    the first entry of each digest in input order, and one indexed message per entry that
    faults. */
module Upload {
  import opened Json
  import opened Foreign
  import opened Results

  const NoUploadMessage := "No file(s) were uploaded"
  const AcceptableTypes: seq<string> := ["text/plain", "text/csv", "application/xml"]
  const TypePrefix := "Problem: Uploaded file, '"

  /** `sep.join(parts)` */
  function Join(parts: seq<string>, sep: string): string
  {
    if |parts| == 0 then ""
    else if |parts| == 1 then parts[0]
    else parts[0] + sep + Join(parts[1..], sep)
  }

  const TypeList := "text/plain, text/csv, application/xml"
  const TypeSuffix := "', must be one of the formats:\n       "

  /** The list of acceptable types the message ends with is `', '.join(acceptable_type)`. */
  lemma TypeListJoined()
    ensures Join(AcceptableTypes, ", ") == TypeList
  {
    assert AcceptableTypes[1..][1..] == ["application/xml"];
  }

  /** The whitelist message: it quotes the path and then lists the acceptable types. */
  function TypeMessage(path: string): (msg: string)
    ensures |msg| == |TypePrefix| + |path| + |TypeSuffix| + |TypeList|
    ensures msg[..|TypePrefix|] == TypePrefix
    ensures msg[|TypePrefix|..|TypePrefix| + |path|] == path
    ensures msg[|msg| - |TypeList|..] == Join(AcceptableTypes, ", ")
  {
    TypeListJoined();
    var msg := TypePrefix + path + TypeSuffix + TypeList;
    assert msg == TypePrefix + (path + (TypeSuffix + TypeList));
    assert msg == (TypePrefix + path + TypeSuffix) + TypeList;
    msg
  }

  const IndexPrefix := "Problem with file upload #"
  const IndexSuffix := ". Please re-upload the file."

  /** The message for a fault while handling the entry at `index` (counted from zero). */
  function IndexMessage(index: nat): (msg: string)
    ensures |msg| == |IndexPrefix| + |NatToString(index)| + |IndexSuffix|
    ensures msg[..|IndexPrefix|] == IndexPrefix
    ensures msg[|IndexPrefix|..|msg| - |IndexSuffix|] == NatToString(index)
    ensures msg[|msg| - |IndexSuffix|..] == IndexSuffix
  {
    var msg := IndexPrefix + NatToString(index) + IndexSuffix;
    assert msg == (IndexPrefix + NatToString(index)) + IndexSuffix;
    msg
  }

  /** Each index has its own message: the message names the index it was raised for. */
  lemma IndexMessageInjective(i: nat, j: nat)
    requires IndexMessage(i) == IndexMessage(j)
    ensures i == j
  {
    var a, b := IndexMessage(i), IndexMessage(j);
    assert a[|IndexPrefix|..|a| - |IndexSuffix|] == NatToString(i);
    assert b[|IndexPrefix|..|b| - |IndexSuffix|] == NatToString(j);
    NatToStringInjective(i, j);
  }

  /** `filedata['file_temp'][0]` when it is a string: the first path of a list, or the first
      character of a string. None where Python raises (no such key, an empty list, a
      non-string path) or the file calls would reject the argument. */
  function PathOf(filedata: Value): (r: Option<string>)
    ensures r.Some? ==> Member(filedata, "file_temp").Some?
    ensures Member(filedata, "file_temp").Some? && Member(filedata, "file_temp").value.JArr? ==>
              var paths := Member(filedata, "file_temp").value.items;
              (r.Some? <==> |paths| > 0 && paths[0].JStr?) &&
              (r.Some? ==> r.value == paths[0].s)
    ensures Member(filedata, "file_temp").Some? && Member(filedata, "file_temp").value.JStr? ==>
              var s := Member(filedata, "file_temp").value.s;
              (r.Some? <==> |s| > 0) && (r.Some? ==> r.value == s[..1])
    ensures (Member(filedata, "file_temp").Some? && !Member(filedata, "file_temp").value.JArr? &&
             !Member(filedata, "file_temp").value.JStr?) ==> r.None?
  {
    match Member(filedata, "file_temp")
    case Some(JArr(paths)) => if |paths| > 0 && paths[0].JStr? then Some(paths[0].s) else None
    case Some(JStr(s)) => if |s| > 0 then Some([s[0]]) else None
    case _ => None
  }

  /** An entry whose MIME type was sniffed and is not on the whitelist. */
  predicate Rejected(filedata: Value, io: Io)
  {
    PathOf(filedata).Some? && io.mime(PathOf(filedata).value).Some? &&
    io.mime(PathOf(filedata).value).value !in AcceptableTypes
  }

  /** An entry that got as far as a digest: path, MIME type and hash all succeeded. */
  predicate Hashed(filedata: Value, io: Io)
  {
    PathOf(filedata).Some? && io.mime(PathOf(filedata).value).Some? &&
    io.hash(PathOf(filedata).value).Some?
  }

  /** An entry whose handling raised somewhere inside the `try`. */
  predicate Faulted(filedata: Value, io: Io)
  {
    !Hashed(filedata, io)
  }

  function DigestOf(filedata: Value, io: Io): Digest
    requires Hashed(filedata, io)
  {
    io.hash(PathOf(filedata).value).value
  }

  /** `{'type': mimetype, 'filedata': filedata}` */
  datatype Kept = Kept(mime: string, filedata: Value)

  function KeptOf(filedata: Value, io: Io): (k: Kept)
    requires Hashed(filedata, io)
    ensures k.filedata == filedata
  {
    Kept(io.mime(PathOf(filedata).value).value, filedata)
  }

  function KeptJson(k: Kept): Value
  {
    JObj([("type", JStr(k.mime)), ("filedata", k.filedata)])
  }

  function KeptJsons(kept: seq<Kept>): (r: seq<Value>)
    ensures |r| == |kept|
    ensures forall k :: 0 <= k < |kept| ==> r[k] == KeptJson(kept[k])
  {
    if kept == [] then [] else [KeptJson(kept[0])] + KeptJsons(kept[1..])
  }

  /** The messages the entry at `index` adds: the whitelist message if its type was sniffed
      and rejected, and the indexed message if anything in its handling raised. */
  function EntryErrors(filedata: Value, index: nat, io: Io): (r: seq<string>)
    ensures |r| == (if Rejected(filedata, io) then 1 else 0) + (if Faulted(filedata, io) then 1 else 0)
    ensures Rejected(filedata, io) ==> r[0] == TypeMessage(PathOf(filedata).value)
    ensures Faulted(filedata, io) ==> r[|r| - 1] == IndexMessage(index)
  {
    match PathOf(filedata)
    case None => [IndexMessage(index)]
    case Some(path) =>
      match io.mime(path)
      case None => [IndexMessage(index)]
      case Some(mime) =>
        (if mime in AcceptableTypes then [] else [TypeMessage(path)]) +
        (if io.hash(path).None? then [IndexMessage(index)] else [])
  }

  /** The two kinds of message never coincide: they part at the eighth character. */
  lemma MessagesDistinct(path: string, index: nat)
    ensures TypeMessage(path) != IndexMessage(index)
  {
    assert TypeMessage(path)[7] == TypePrefix[7] == ':';
    assert IndexMessage(index)[7] == IndexPrefix[7] == ' ';
  }

  /** Which messages an entry produces: the whitelist message exactly when its sniffed type
      is rejected, the indexed message exactly when its handling raised. */
  lemma EntryMessages(filedata: Value, index: nat, io: Io)
    ensures PathOf(filedata).Some? ==>
              (TypeMessage(PathOf(filedata).value) in EntryErrors(filedata, index, io) <==> Rejected(filedata, io))
    ensures IndexMessage(index) in EntryErrors(filedata, index, io) <==> Faulted(filedata, io)
  {
    var r := EntryErrors(filedata, index, io);
    if PathOf(filedata).Some? {
      MessagesDistinct(PathOf(filedata).value, index);
    }
    if !Faulted(filedata, io) && Rejected(filedata, io) {
      assert r == [TypeMessage(PathOf(filedata).value)];
    }
    if Faulted(filedata, io) && !Rejected(filedata, io) {
      assert r == [IndexMessage(index)];
    }
  }

  /** `list_error` after the turn of the loop for the entry at `index`, appending message by
      message in the order the program's branches do. */
  function AddEntryErrors(errors: seq<string>, filedata: Value, index: nat, io: Io): (r: seq<string>)
    ensures errors <= r
    ensures |r| == |errors| + (if Rejected(filedata, io) then 1 else 0) + (if Faulted(filedata, io) then 1 else 0)
    ensures Faulted(filedata, io) ==> r[|r| - 1] == IndexMessage(index)
    ensures Rejected(filedata, io) ==> r[|errors|] == TypeMessage(PathOf(filedata).value)
  {
    match PathOf(filedata)
    case None => errors + [IndexMessage(index)]
    case Some(path) =>
      match io.mime(path)
      case None => errors + [IndexMessage(index)]
      case Some(mime) =>
        var typed := if mime in AcceptableTypes then errors else errors + [TypeMessage(path)];
        if io.hash(path).None? then typed + [IndexMessage(index)] else typed
  }

  /** A turn of the loop appends exactly the entry's own messages. */
  lemma AddEntryErrorsAppends(errors: seq<string>, filedata: Value, index: nat, io: Io)
    ensures AddEntryErrors(errors, filedata, index, io) == errors + EntryErrors(filedata, index, io)
  {
    if PathOf(filedata).Some? && io.mime(PathOf(filedata).value).Some? {
      var path := PathOf(filedata).value;
      var typeErrors: seq<string> := if io.mime(path).value in AcceptableTypes then [] else [TypeMessage(path)];
      if io.hash(path).None? {
        assert errors + typeErrors + [IndexMessage(index)] == errors + (typeErrors + [IndexMessage(index)]);
      }
    }
  }

  /** `list_error` after the loop has handled `entries`. */
  function ErrorsAll(entries: seq<Value>, io: Io): seq<string>
  {
    if entries == [] then []
    else AddEntryErrors(ErrorsAll(entries[..|entries| - 1], io), entries[|entries| - 1], |entries| - 1, io)
  }

  /** The loop's de-duplication state: `unique_hash` and `json_keep`. */
  datatype Keep = Keep(seen: set<Digest>, kept: seq<Kept>)

  /** One turn of the loop on `unique_hash` and `json_keep`: a hashed entry with an unseen
      digest is recorded and kept. */
  function KeepStep(st: Keep, filedata: Value, io: Io): (r: Keep)
    ensures r.seen == st.seen + (if Hashed(filedata, io) then {DigestOf(filedata, io)} else {})
    ensures st.kept <= r.kept && |r.kept| <= |st.kept| + 1
    ensures |r.kept| == |st.kept| + 1 <==> Hashed(filedata, io) && DigestOf(filedata, io) !in st.seen
  {
    if Hashed(filedata, io) && DigestOf(filedata, io) !in st.seen then
      Keep(st.seen + {DigestOf(filedata, io)}, st.kept + [KeptOf(filedata, io)])
    else st
  }

  /** `unique_hash` and `json_keep` after the loop has handled `entries`. */
  function KeepAll(entries: seq<Value>, io: Io): Keep
  {
    if entries == [] then Keep({}, [])
    else KeepStep(KeepAll(entries[..|entries| - 1], io), entries[|entries| - 1], io)
  }

  /** Each kept entry added one new digest to the seen set, so the keep-list is exactly as long
      as the seen set. */
  lemma {:induction false} KeptMatchesSeen(entries: seq<Value>, io: Io)
    ensures |KeepAll(entries, io).kept| == |KeepAll(entries, io).seen|
  {
    if entries != [] {
      KeptMatchesSeen(entries[..|entries| - 1], io);
    }
  }

  /** On a prefix one longer, the error list grows by the next entry's messages. */
  lemma ErrorsAllSnoc(entries: seq<Value>, n: nat, io: Io)
    requires 0 < n <= |entries|
    ensures ErrorsAll(entries[..n], io) == AddEntryErrors(ErrorsAll(entries[..n - 1], io), entries[n - 1], n - 1, io)
    ensures ErrorsAll(entries[..n], io) == ErrorsAll(entries[..n - 1], io) + EntryErrors(entries[n - 1], n - 1, io)
  {
    assert entries[..n][..n - 1] == entries[..n - 1];
    AddEntryErrorsAppends(ErrorsAll(entries[..n - 1], io), entries[n - 1], n - 1, io);
  }

  /** On a prefix one longer, the de-duplication state takes one more step. */
  lemma KeepAllSnoc(entries: seq<Value>, n: nat, io: Io)
    requires 0 < n <= |entries|
    ensures KeepAll(entries[..n], io) == KeepStep(KeepAll(entries[..n - 1], io), entries[n - 1], io)
  {
    assert entries[..n][..n - 1] == entries[..n - 1];
  }

  // ---------------------------------------------------------------------------
  // De-duplication, stated without the loop's state

  /** Entry `i` is the first entry, in input order, with its digest. */
  predicate IsFirst(entries: seq<Value>, i: int, io: Io)
    requires 0 <= i < |entries|
  {
    Hashed(entries[i], io) &&
    forall j :: 0 <= j < i && Hashed(entries[j], io) ==> DigestOf(entries[j], io) != DigestOf(entries[i], io)
  }

  /** The indices below `n` of first entries, in increasing order. */
  function FirstsBelow(entries: seq<Value>, n: nat, io: Io): (idx: seq<nat>)
    requires n <= |entries|
    ensures forall k :: 0 <= k < |idx| ==> idx[k] < n && IsFirst(entries, idx[k], io)
    ensures forall k, l :: 0 <= k < l < |idx| ==> idx[k] < idx[l]
    ensures forall i :: 0 <= i < n && IsFirst(entries, i, io) ==> i in idx
  {
    if n == 0 then []
    else FirstsBelow(entries, n - 1, io) + (if IsFirst(entries, n - 1, io) then [n - 1] else [])
  }

  /** The digests of the hashed entries below `n`. */
  function DigestsBelow(entries: seq<Value>, n: nat, io: Io): set<Digest>
    requires n <= |entries|
  {
    set j | 0 <= j < n && Hashed(entries[j], io) :: DigestOf(entries[j], io)
  }

  /** Entry `n - 1` is first exactly when its digest is not among those met before it. */
  lemma FirstIffUnseen(entries: seq<Value>, n: nat, io: Io)
    requires 0 < n <= |entries| && Hashed(entries[n - 1], io)
    ensures IsFirst(entries, n - 1, io) <==> DigestOf(entries[n - 1], io) !in DigestsBelow(entries, n - 1, io)
  {
    var d := DigestOf(entries[n - 1], io);
    if d in DigestsBelow(entries, n - 1, io) {
      var j :| 0 <= j < n - 1 && Hashed(entries[j], io) && DigestOf(entries[j], io) == d;
    }
  }

  /** The digests below `n` grow by the digest of entry `n - 1`, if it has one. */
  lemma DigestsBelowGrow(entries: seq<Value>, n: nat, io: Io)
    requires 0 < n <= |entries|
    ensures DigestsBelow(entries, n, io) ==
      DigestsBelow(entries, n - 1, io) + (if Hashed(entries[n - 1], io) then {DigestOf(entries[n - 1], io)} else {})
  {
  }

  /** The loop's seen-set holds the digests of the entries met so far. */
  lemma {:induction false} SeenCharacterized(entries: seq<Value>, n: nat, io: Io)
    requires n <= |entries|
    ensures KeepAll(entries[..n], io).seen == DigestsBelow(entries, n, io)
  {
    if n > 0 {
      SeenCharacterized(entries, n - 1, io);
      KeepAllSnoc(entries, n, io);
      DigestsBelowGrow(entries, n, io);
    }
  }

  /** A turn of the loop keeps its entry exactly when that entry is the first of its digest. */
  lemma KeptGrow(entries: seq<Value>, n: nat, io: Io)
    requires 0 < n <= |entries|
    ensures KeepAll(entries[..n], io).kept ==
      KeepAll(entries[..n - 1], io).kept + (if IsFirst(entries, n - 1, io) then [KeptOf(entries[n - 1], io)] else [])
  {
    SeenCharacterized(entries, n - 1, io);
    KeepAllSnoc(entries, n, io);
    if Hashed(entries[n - 1], io) {
      FirstIffUnseen(entries, n, io);
    }
  }

  /** The loop's keep-list is the first entries met so far, in order. */
  lemma {:induction false} KeptCharacterized(entries: seq<Value>, n: nat, io: Io)
    requires n <= |entries|
    ensures |KeepAll(entries[..n], io).kept| == |FirstsBelow(entries, n, io)|
    ensures forall k :: 0 <= k < |FirstsBelow(entries, n, io)| ==>
              KeepAll(entries[..n], io).kept[k] == KeptOf(entries[FirstsBelow(entries, n, io)[k]], io)
  {
    if n > 0 {
      KeptCharacterized(entries, n - 1, io);
      KeptGrow(entries, n, io);
    }
  }

  /** The indices of the entries the validator keeps. */
  function FirstIndices(entries: seq<Value>, io: Io): seq<nat>
  {
    FirstsBelow(entries, |entries|, io)
  }

  /** De-duplication: the keep-list holds, in input order, exactly the first entry of each
      digest, each with its sniffed type; so it is no longer than the input, its digests are
      pairwise distinct, and each kept `filedata` is an input entry. */
  lemma Dedup(entries: seq<Value>, io: Io)
    ensures var kept, idx := KeepAll(entries, io).kept, FirstIndices(entries, io);
      && |kept| == |idx| <= |entries|
      && (forall k :: 0 <= k < |kept| ==> idx[k] < |entries| && kept[k] == KeptOf(entries[idx[k]], io))
      && (forall k, l :: 0 <= k < l < |kept| ==> idx[k] < idx[l])
      && (forall i :: 0 <= i < |entries| ==> (IsFirst(entries, i, io) <==> i in idx))
      && (forall k :: 0 <= k < |kept| ==> kept[k].filedata in entries && Hashed(kept[k].filedata, io))
      && (forall k, l :: 0 <= k < l < |kept| ==> DigestOf(kept[k].filedata, io) != DigestOf(kept[l].filedata, io))
  {
    KeptCharacterized(entries, |entries|, io);
    assert entries[..|entries|] == entries;
    var kept, idx := KeepAll(entries, io).kept, FirstIndices(entries, io);
    IndicesBound(idx, |entries|);
    forall k, l | 0 <= k < l < |kept|
      ensures DigestOf(kept[k].filedata, io) != DigestOf(kept[l].filedata, io)
    {
      assert IsFirst(entries, idx[l], io);
    }
  }

  /** A rejected type does not stop de-duplication: a rejected entry that is the first of its
      digest is still kept, with the type that was rejected. */
  lemma RejectedStillKept(entries: seq<Value>, i: nat, io: Io)
    requires i < |entries| && Rejected(entries[i], io) && IsFirst(entries, i, io)
    ensures KeptOf(entries[i], io) in KeepAll(entries, io).kept
    ensures KeptOf(entries[i], io).mime !in AcceptableTypes
  {
    Dedup(entries, io);
    var idx := FirstIndices(entries, io);
    var k :| 0 <= k < |idx| && idx[k] == i;
    assert KeepAll(entries, io).kept[k] == KeptOf(entries[i], io);
  }

  /** A strictly increasing sequence of indices below `n` has at most `n` elements. */
  lemma {:induction false} IndicesBound(idx: seq<nat>, n: nat)
    requires forall k :: 0 <= k < |idx| ==> idx[k] < n
    requires forall k, l :: 0 <= k < l < |idx| ==> idx[k] < idx[l]
    ensures |idx| <= n
  {
    if |idx| > 0 {
      var last := idx[|idx| - 1];
      IndicesBound(idx[..|idx| - 1], last);
    }
  }

  function Filedatas(kept: seq<Kept>): (r: seq<Value>)
    ensures |r| == |kept|
    ensures forall k :: 0 <= k < |kept| ==> r[k] == kept[k].filedata
  {
    if kept == [] then [] else [kept[0].filedata] + Filedatas(kept[1..])
  }

  /** Entries that all have digests, pairwise distinct, are all kept, in order. */
  lemma {:induction false} KeepAllDistinct(entries: seq<Value>, n: nat, io: Io)
    requires n <= |entries|
    requires forall i :: 0 <= i < |entries| ==> Hashed(entries[i], io)
    requires forall i, j :: 0 <= i < j < |entries| ==> DigestOf(entries[i], io) != DigestOf(entries[j], io)
    ensures |KeepAll(entries[..n], io).kept| == n
    ensures forall k :: 0 <= k < n ==> KeepAll(entries[..n], io).kept[k] == KeptOf(entries[k], io)
  {
    if n > 0 {
      KeepAllDistinct(entries, n - 1, io);
      KeptGrow(entries, n, io);
      assert IsFirst(entries, n - 1, io);
    }
  }

  /** Idempotence: de-duplicating the kept entries again removes none of them. */
  lemma DedupIdempotent(entries: seq<Value>, io: Io)
    ensures KeepAll(Filedatas(KeepAll(entries, io).kept), io).kept == KeepAll(entries, io).kept
  {
    var kept := KeepAll(entries, io).kept;
    var again := Filedatas(kept);
    Dedup(entries, io);
    KeepAllDistinct(again, |again|, io);
    assert again[..|again|] == again;
  }

  // ---------------------------------------------------------------------------
  // Errors

  /** The indices of rejected and of faulted entries. */
  function RejectedIndices(entries: seq<Value>, io: Io): set<nat>
  {
    set i: nat | i < |entries| && Rejected(entries[i], io)
  }

  function FaultedIndices(entries: seq<Value>, io: Io): set<nat>
  {
    set i: nat | i < |entries| && Faulted(entries[i], io)
  }

  /** One more entry adds its index to the rejected ones if its type is rejected. */
  lemma RejectedGrow(entries: seq<Value>, io: Io)
    requires entries != []
    ensures var n := |entries| - 1;
      |RejectedIndices(entries, io)| == |RejectedIndices(entries[..n], io)| + (if Rejected(entries[n], io) then 1 else 0)
  {
    var n := |entries| - 1;
    var prefix := entries[..n];
    var a, b := RejectedIndices(prefix, io), RejectedIndices(entries, io);
    var c := a + (if Rejected(entries[n], io) then {n} else {});
    forall i: nat
      ensures i in b <==> i in c
    {
      if i < n {
        assert prefix[i] == entries[i];
      }
    }
    assert b == c;
    assert n !in a;
  }

  /** One more entry adds its index to the faulted ones if its handling raised. */
  lemma FaultedGrow(entries: seq<Value>, io: Io)
    requires entries != []
    ensures var n := |entries| - 1;
      |FaultedIndices(entries, io)| == |FaultedIndices(entries[..n], io)| + (if Faulted(entries[n], io) then 1 else 0)
  {
    var n := |entries| - 1;
    var prefix := entries[..n];
    var a, b := FaultedIndices(prefix, io), FaultedIndices(entries, io);
    var c := a + (if Faulted(entries[n], io) then {n} else {});
    forall i: nat
      ensures i in b <==> i in c
    {
      if i < n {
        assert prefix[i] == entries[i];
      }
    }
    assert b == c;
    assert n !in a;
  }

  /** Each rejected type and each fault adds exactly one message; an entry that is both adds
      two. */
  lemma {:induction false} ErrorCount(entries: seq<Value>, io: Io)
    ensures |ErrorsAll(entries, io)| == |RejectedIndices(entries, io)| + |FaultedIndices(entries, io)|
  {
    if entries != [] {
      var n := |entries| - 1;
      var prefix := entries[..n];
      ErrorCount(prefix, io);
      RejectedGrow(entries, io);
      FaultedGrow(entries, io);
    }
  }

  /** The error list grows only at its end: what the first `n` entries reported stays
      at the front. */
  lemma {:induction false} ErrorsPrefix(entries: seq<Value>, n: nat, io: Io)
    requires n <= |entries|
    ensures ErrorsAll(entries[..n], io) <= ErrorsAll(entries, io)
    decreases |entries| - n
  {
    if n < |entries| {
      var m := |entries| - 1;
      ErrorsPrefix(entries[..m], n, io);
      assert entries[..m][..n] == entries[..n];
      AddEntryErrorsAppends(ErrorsAll(entries[..m], io), entries[m], m, io);
    } else {
      assert entries[..n] == entries;
    }
  }

  /** Every message an entry raises reaches the final list, whatever the later entries do:
      a rejected type names its path, and a fault names its own index. */
  lemma EntryReported(entries: seq<Value>, i: nat, io: Io)
    requires i < |entries|
    ensures Rejected(entries[i], io) ==> TypeMessage(PathOf(entries[i]).value) in ErrorsAll(entries, io)
    ensures Faulted(entries[i], io) ==> IndexMessage(i) in ErrorsAll(entries, io)
  {
    ErrorsPrefix(entries, i + 1, io);
    var upto := entries[..i + 1];
    assert upto[..i] == entries[..i];
    var mine := EntryErrors(entries[i], i, io);
    var all := ErrorsAll(upto, io);
    assert all == ErrorsAll(entries[..i], io) + mine;
    if Rejected(entries[i], io) {
      assert mine[0] in all;
    }
    if Faulted(entries[i], io) {
      assert mine[|mine| - 1] in all;
    }
  }

  /** The loop reports nothing exactly when every entry has a whitelisted type and a digest. */
  lemma ErrorsEmpty(entries: seq<Value>, io: Io)
    ensures ErrorsAll(entries, io) == [] <==>
            forall i :: 0 <= i < |entries| ==> !Rejected(entries[i], io) && Hashed(entries[i], io)
  {
    ErrorCount(entries, io);
    if ErrorsAll(entries, io) == [] {
      forall i | 0 <= i < |entries|
        ensures !Rejected(entries[i], io) && Hashed(entries[i], io)
      {
        var r: nat := i;
        assert r !in RejectedIndices(entries, io);
        assert r !in FaultedIndices(entries, io);
      }
    } else {
      assert RejectedIndices(entries, io) != {} || FaultedIndices(entries, io) != {};
    }
  }

  // ---------------------------------------------------------------------------
  // The whole operation

  /** `json.loads(json_file_obj)['data']['dataset']` */
  function DatasetOf(payload: Value): Option<Value>
  {
    Nested(payload, "data", "dataset")
  }

  /** When `file_upload_validation` returns rather than raises: the dataset is a dictionary,
      and a truthy `file_upload` is a list (any other truthy value makes the loop or the final
      slice assignment raise). */
  predicate UploadDefined(payload: Value)
    ensures UploadDefined(payload) ==> DatasetOf(payload).Some? && DatasetOf(payload).value.JObj?
    ensures (DatasetOf(payload).Some? && DatasetOf(payload).value.JObj? &&
             Lookup(DatasetOf(payload).value.fields, "file_upload").None?) ==> UploadDefined(payload)
  {
    DatasetOf(payload).Some? && DatasetOf(payload).value.JObj? &&
    var upload := Lookup(DatasetOf(payload).value.fields, "file_upload");
    (upload.Some? && Truthy(upload.value) ==> upload.value.JArr?)
  }

  /** The upload list, or None when it is absent or empty. */
  function UploadsOf(payload: Value): (r: Option<seq<Value>>)
    requires UploadDefined(payload)
    ensures var upload := Lookup(DatasetOf(payload).value.fields, "file_upload");
      r.None? <==> upload.None? || !Truthy(upload.value)
    ensures r.Some? ==> |r.value| > 0 && Lookup(DatasetOf(payload).value.fields, "file_upload") == Some(JArr(r.value))
  {
    var upload := Lookup(DatasetOf(payload).value.fields, "file_upload");
    if upload.Some? && Truthy(upload.value) then Some(upload.value.items) else None
  }

  /** The dictionary `file_upload_validation` returns. On success `json_data` is the dataset
      with its upload list replaced by the kept entries. */
  function UploadOutcome(payload: Value, io: Io): (r: UploadReport)
    requires UploadDefined(payload)
    ensures r.status <==> r.error.None?
    ensures r.status <==> r.jsonData.Some?
    ensures r.error.Some? ==> |r.error.value| > 0
  {
    var fields := DatasetOf(payload).value.fields;
    match UploadsOf(payload)
    case None => UploadReport(false, Some([NoUploadMessage]), None)
    case Some(entries) =>
      var errors := ErrorsAll(entries, io);
      if |errors| > 0 then UploadReport(false, Some(errors), None)
      else UploadReport(true, None, Some(JObj(Update(fields, "file_upload", JArr(KeptJsons(KeepAll(entries, io).kept))))))
  }

  /** An absent or empty upload list gives exactly the one fixed message and no data. */
  lemma NoUploads(payload: Value, io: Io)
    requires UploadDefined(payload)
    requires UploadsOf(payload).None?
    ensures UploadOutcome(payload, io) == UploadReport(false, Some([NoUploadMessage]), None)
  {
  }

  /** The operation succeeds exactly when there are uploads and every one of them has a
      whitelisted type and a digest; then `json_data` is the dataset whose `file_upload` is the
      kept list and whose other keys are untouched. */
  lemma UploadSuccess(payload: Value, io: Io, key: string)
    requires UploadDefined(payload)
    ensures UploadOutcome(payload, io).status <==>
            UploadsOf(payload).Some? &&
            forall i :: 0 <= i < |UploadsOf(payload).value| ==>
              !Rejected(UploadsOf(payload).value[i], io) && Hashed(UploadsOf(payload).value[i], io)
    ensures UploadOutcome(payload, io).status ==>
              var out := UploadOutcome(payload, io).jsonData.value;
              var fields := DatasetOf(payload).value.fields;
              && out.JObj?
              && Lookup(out.fields, "file_upload") == Some(JArr(KeptJsons(KeepAll(UploadsOf(payload).value, io).kept)))
              && (key != "file_upload" ==> Lookup(out.fields, key) == Lookup(fields, key))
  {
    if UploadsOf(payload).Some? {
      var entries := UploadsOf(payload).value;
      ErrorsEmpty(entries, io);
      var fields := DatasetOf(payload).value.fields;
      UpdateLookup(fields, "file_upload", JArr(KeptJsons(KeepAll(entries, io).kept)), key);
    }
  }

  /** A rejected type fails the whole operation, so no data is returned, though the entry
      still took part in de-duplication. */
  lemma RejectedFails(payload: Value, io: Io, i: nat)
    requires UploadDefined(payload)
    requires UploadsOf(payload).Some? && i < |UploadsOf(payload).value|
    requires Rejected(UploadsOf(payload).value[i], io)
    ensures UploadOutcome(payload, io).status == false
    ensures UploadOutcome(payload, io).jsonData == None
    ensures TypeMessage(PathOf(UploadsOf(payload).value[i]).value) in UploadOutcome(payload, io).error.value
  {
    EntryReported(UploadsOf(payload).value, i, io);
  }

  /** The kept entries are wrapped as `{'type', 'filedata'}` and have no `file_temp`, so feeding
      the returned upload list back in faults every entry: the k-th message is the one for
      index k. */
  lemma RerunOnOutputFaults(kept: seq<Kept>, io: Io)
    ensures var errors := ErrorsAll(KeptJsons(kept), io);
      |errors| == |kept| && forall k :: 0 <= k < |kept| ==> errors[k] == IndexMessage(k)
  {
    var entries := KeptJsons(kept);
    forall i | 0 <= i < |entries|
      ensures PathOf(entries[i]) == None
    {
      var fields := KeptJson(kept[i]).fields;
      assert fields[0].0 == "type" && fields[1].0 == "filedata" && fields[1..][1..] == [];
      assert "type" != "file_temp" && "filedata" != "file_temp";
      assert Lookup(fields[1..][1..], "file_temp") == None;
      assert Lookup(fields[1..], "file_temp") == None;
      assert Member(entries[i], "file_temp") == Lookup(fields, "file_temp") == None;
    }
    AllFaulted(entries, |entries|, io);
    assert entries[..|entries|] == entries;
  }

  /** Entries without a path report their own indices, one each, in order. */
  lemma {:induction false} AllFaulted(entries: seq<Value>, n: nat, io: Io)
    requires n <= |entries|
    requires forall i :: 0 <= i < |entries| ==> PathOf(entries[i]) == None
    ensures var errors := ErrorsAll(entries[..n], io);
      |errors| == n && forall k :: 0 <= k < n ==> errors[k] == IndexMessage(k)
  {
    if n > 0 {
      AllFaulted(entries, n - 1, io);
      assert entries[..n][..n - 1] == entries[..n - 1];
      var prev := ErrorsAll(entries[..n - 1], io);
      assert PathOf(entries[..n][n - 1]) == None;
      var errors := prev + [IndexMessage(n - 1)];
      assert ErrorsAll(entries[..n], io) == errors;
      forall k | 0 <= k < n
        ensures errors[k] == IndexMessage(k)
      {
        if k < n - 1 {
          assert errors[k] == prev[k];
        }
      }
    }
  }
}
