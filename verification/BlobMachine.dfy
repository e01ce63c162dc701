/** The blob directory under concurrent use. Each `put_if_absent` call is a
    writer that takes one filesystem action at a time; files may be removed and
    the process may stop between any two actions. */
module BlobMachine {
  import opened Common

  datatype Hashes = Hashes(md5: string, sha1: string, sha256: string, sha512: string)

  predicate IsHexDigit(c: char) {
    '0' <= c <= '9' || 'a' <= c <= 'f'
  }

  /** The digest functions, as one function of the bytes. */
  datatype Hasher = Hasher(all: Bytes -> Hashes)
  {
    function Sha256(b: Bytes): string { all(b).sha256 }

    /** SHA-256 text is lower-case hex, and no two byte strings share it. */
    ghost predicate Sound() {
      && (forall b :: Sha256(b) != "" && forall i :: 0 <= i < |Sha256(b)| ==> IsHexDigit(Sha256(b)[i]))
      && (forall a, b :: Sha256(a) == Sha256(b) ==> a == b)
    }
  }

  const CHUNK: nat := 65536
  const SIDECAR := ".hashes"
  const UPLOAD := ".upload-"

  // ---- names --------------------------------------------------------------

  function LowerChar(c: char): char {
    if 'A' <= c <= 'Z' then c - 'A' + 'a' else c
  }

  function Lower(s: string): string {
    seq(|s|, i requires 0 <= i < |s| => LowerChar(s[i]))
  }

  /** The index of the first ':', or the length. */
  function ColonAt(s: string): (k: nat)
    ensures k <= |s|
    ensures k < |s| ==> s[k] == ':'
    ensures forall i :: 0 <= i < k ==> s[i] != ':'
  {
    if s == "" || s[0] == ':' then 0 else 1 + ColonAt(s[1..])
  }

  /** The hex a digest announces; None for a digest with an empty side. The
      algorithm is not consulted: every stream is hashed with SHA-256. */
  function Announced(digest: string): Option<string> {
    var k := ColonAt(digest);
    if k == |digest| then Some(digest)
    else if k == 0 || k + 1 == |digest| then None
    else Some(Lower(digest[k + 1..]))
  }

  predicate EndsWith(s: string, suffix: string) {
    |s| >= |suffix| && s[|s| - |suffix|..] == suffix
  }

  predicate IsSidecarName(n: string) { EndsWith(n, SIDECAR) }

  predicate IsTempName(n: string) {
    UPLOAD < n && forall i :: |UPLOAD| <= i < |n| ==> IsHexDigit(n[i]) || n[i] == '-'
  }

  predicate IsBlobName(n: string) { !IsSidecarName(n) && !IsTempName(n) }

  /** Joining these to the root gives a directory, which always exists. */
  predicate IsDirectory(n: string) { n == "" || n == "." || n == ".." }

  ghost predicate Names(h: Hasher, digest: string, b: Bytes) {
    Announced(digest) == Some(h.Sha256(b))
  }

  /** The first ':' of the digest. */
  ghost predicate Splits(digest: string, k: int) {
    0 <= k < |digest| && digest[k] == ':' && forall i :: 0 <= i < k ==> digest[i] != ':'
  }

  /** One side of the first ':' is empty. */
  ghost predicate Malformed(digest: string) {
    exists k :: Splits(digest, k) && (k == 0 || k == |digest| - 1)
  }

  /** `hex` is `hash` with some letters perhaps written large. */
  ghost predicate Spells(hex: string, hash: string) {
    |hex| == |hash| && forall i :: 0 <= i < |hex| ==>
      if 'A' <= hex[i] <= 'Z' then hash[i] as int - 'a' as int == hex[i] as int - 'A' as int else hash[i] == hex[i]
  }

  /** What a digest says of the bytes: their SHA-256 text itself or, after some
      algorithm name and a ':', that text in either case. */
  ghost predicate Fits(h: Hasher, digest: string, b: Bytes) {
    || (':' !in digest && digest == h.Sha256(b))
    || (exists k :: Splits(digest, k) && 0 < k < |digest| - 1 && Spells(digest[k + 1..], h.Sha256(b)))
  }

  lemma LowerSpells(hex: string, hash: string)
    ensures Lower(hex) == hash <==> Spells(hex, hash)
  {
    if Spells(hex, hash) {
      assert forall i :: 0 <= i < |hex| ==> LowerChar(hex[i]) == hash[i];
    }
  }

  lemma SplitsAt(digest: string)
    ensures ':' !in digest <==> ColonAt(digest) == |digest|
    ensures forall k :: Splits(digest, k) <==> k < |digest| && k == ColonAt(digest)
  {
    if ColonAt(digest) < |digest| { assert digest[ColonAt(digest)] in digest; }
  }

  /** The code's reading of a digest, on every text. */
  lemma AnnouncedExact(h: Hasher, digest: string, b: Bytes)
    ensures Announced(digest) == None <==> Malformed(digest)
    ensures Names(h, digest, b) <==> Fits(h, digest, b)
  {
    SplitsAt(digest);
    var k := ColonAt(digest);
    if k < |digest| {
      assert Splits(digest, k);
      LowerSpells(digest[k + 1..], h.Sha256(b));
    }
  }

  /** A digest written as the registries write it. */
  lemma PairFits(h: Hasher, algo: string, hex: string, b: Bytes)
    requires ':' !in algo
    ensures Malformed(algo + ":" + hex) <==> algo == "" || hex == ""
    ensures algo != "" && hex != "" ==> (Fits(h, algo + ":" + hex, b) <==> Spells(hex, h.Sha256(b)))
  {
    var d, k := algo + ":" + hex, |algo|;
    assert Splits(d, k) by { assert forall i :: 0 <= i < k ==> d[i] == algo[i]; }
    SplitsAt(d);
    assert d[k + 1..] == hex && d[k] in d;
  }

  /** A digest that some content matches is not a sidecar or temp file name. */
  lemma NamesAreBlobNames(h: Hasher, digest: string, b: Bytes)
    requires h.Sound() && Names(h, digest, b)
    ensures IsBlobName(digest)
  {
    var hash, k := h.Sha256(b), ColonAt(digest);
    assert IsHexDigit(hash[|hash| - 1]);
    if k == |digest| {
      assert digest == hash && IsHexDigit(digest[0]);
    } else {
      assert LowerChar(digest[|digest| - 1]) == hash[|hash| - 1];
    }
  }

  function SidecarOf(digest: string): string { digest + SIDECAR }

  lemma SidecarNames(digest: string)
    ensures IsSidecarName(SidecarOf(digest)) && !IsTempName(SidecarOf(digest))
    ensures SidecarOf(digest)[..|SidecarOf(digest)| - |SIDECAR|] == digest
  {
    var n := SidecarOf(digest);
    assert n[|n| - |SIDECAR|..] == SIDECAR;
    assert n[|n| - 1] == 's';
  }

  // ---- the machine --------------------------------------------------------

  /** A file: bytes, a complete sidecar, or a sidecar cut short. */
  datatype Body = Raw(bytes: Bytes) | Sidecar(hashes: Hashes) | Torn

  datatype PutResult = Stored(created: bool) | InvalidDigest | DigestMismatch | IoFailure

  /** Where a put is. `got` is what was read, hashed and written so far. */
  datatype Phase =
    | Checking
    | Creating
    | Streaming(tmp: string, got: Bytes)
    | Rechecking(tmp: string, got: Bytes)
    | Renaming(tmp: string, got: Bytes)
    | OpeningSidecar(got: Bytes)
    | WritingSidecar(got: Bytes)
    | Done(result: PutResult)

  datatype Writer = Writer(digest: string, source: Bytes, phase: Phase)

  datatype State = State(files: map<string, Body>, writers: map<nat, Writer>)

  datatype Step =
    | Begin(w: nat, digest: string, source: Bytes)
    | CheckExists(w: nat)
    | CreateTemp(w: nat, name: string)
    | ReadChunk(w: nat, n: nat)
    | Verify(w: nat)
    | Recheck(w: nat)
    | RenameTemp(w: nat)
    | OpenSidecar(w: nat)
    | WriteSidecar(w: nat, lands: bool)
    | FailIo(w: nat)
    | RemoveFile(name: string)
    | Crash

  function TempOf(w: Writer): Option<string> {
    match w.phase
    case Streaming(t, _) => Some(t)
    case Rechecking(t, _) => Some(t)
    case Renaming(t, _) => Some(t)
    case _ => None
  }

  predicate Exists(s: State, n: string) { n in s.files || IsDirectory(n) }

  /** The suffix of a temp name is random: no other running call holds it. */
  predicate Unclaimed(s: State, name: string) {
    forall v :: v in s.writers ==> TempOf(s.writers[v]) != Some(name)
  }

  predicate Enabled(s: State, step: Step) {
    match step
    case Begin(w, _, _) => w !in s.writers
    case CheckExists(w) => w in s.writers && s.writers[w].phase.Checking?
    case CreateTemp(w, name) => w in s.writers && s.writers[w].phase.Creating? && IsTempName(name) && Unclaimed(s, name)
    case ReadChunk(w, n) =>
      w in s.writers && s.writers[w].phase.Streaming? &&
      0 < n <= CHUNK && |s.writers[w].phase.got| + n <= |s.writers[w].source|
    case Verify(w) => w in s.writers && s.writers[w].phase.Streaming? && s.writers[w].phase.got == s.writers[w].source
    case Recheck(w) => w in s.writers && s.writers[w].phase.Rechecking?
    case RenameTemp(w) => w in s.writers && s.writers[w].phase.Renaming?
    case OpenSidecar(w) => w in s.writers && s.writers[w].phase.OpeningSidecar?
    case WriteSidecar(w, _) => w in s.writers && s.writers[w].phase.WritingSidecar?
    case FailIo(w) =>
      w in s.writers && (var p := s.writers[w].phase;
        p.Creating? || p.Streaming? || p.Renaming? || p.OpeningSidecar? || p.WritingSidecar?)
    case RemoveFile(_) => true
    case Crash => true
  }

  function At(s: State, w: nat, phase: Phase): State
    requires w in s.writers
  {
    s.(writers := s.writers[w := s.writers[w].(phase := phase)])
  }

  function Apply(h: Hasher, s: State, step: Step): State
    requires Enabled(s, step)
  {
    match step
    case Begin(w, digest, source) =>
      s.(writers := s.writers[w := Writer(digest, source, if Announced(digest).None? then Done(InvalidDigest) else Checking)])
    case CheckExists(w) =>
      At(s, w, if Exists(s, s.writers[w].digest) then Done(Stored(false)) else Creating)
    case CreateTemp(w, name) =>
      At(s.(files := s.files[name := Raw([])]), w, Streaming(name, []))
    case ReadChunk(w, n) =>
      var p := s.writers[w].phase;
      var got := s.writers[w].source[..|p.got| + n];
      At(if p.tmp in s.files then s.(files := s.files[p.tmp := Raw(got)]) else s, w, Streaming(p.tmp, got))
    case Verify(w) =>
      var p := s.writers[w].phase;
      var announced := Announced(s.writers[w].digest);
      if announced.None? || (announced.value != "" && h.Sha256(p.got) != announced.value) then
        At(s.(files := s.files - {p.tmp}), w, Done(DigestMismatch))
      else At(s, w, Rechecking(p.tmp, p.got))
    case Recheck(w) =>
      var p := s.writers[w].phase;
      if Exists(s, s.writers[w].digest) then At(s.(files := s.files - {p.tmp}), w, Done(Stored(false)))
      else At(s, w, Renaming(p.tmp, p.got))
    case RenameTemp(w) =>
      var p := s.writers[w].phase;
      if p.tmp !in s.files || IsDirectory(s.writers[w].digest) then At(s, w, Done(IoFailure))
      else At(s.(files := (s.files - {p.tmp})[s.writers[w].digest := s.files[p.tmp]]), w, OpeningSidecar(p.got))
    case OpenSidecar(w) =>
      At(s.(files := s.files[SidecarOf(s.writers[w].digest) := Torn]), w, WritingSidecar(s.writers[w].phase.got))
    case WriteSidecar(w, lands) =>
      // The opened file may have been removed, or replaced under its name.
      var n := SidecarOf(s.writers[w].digest);
      At(if lands && n in s.files then s.(files := s.files[n := Sidecar(h.all(s.writers[w].phase.got))]) else s, w, Done(Stored(true)))
    case FailIo(w) =>
      // The temp file stays behind; a lost sidecar is not reported.
      At(s, w, Done(if s.writers[w].phase.WritingSidecar? || s.writers[w].phase.OpeningSidecar? then Stored(true) else IoFailure))
    case RemoveFile(name) => s.(files := s.files - {name})
    case Crash => s.(writers := map[])
  }

  ghost predicate Follows(h: Hasher, s: State, t: State) {
    exists step :: Enabled(s, step) && t == Apply(h, s, step)
  }

  /** The states of a run, from the empty directory on. */
  ghost predicate Runs(h: Hasher, trace: seq<State>)
    decreases |trace|
  {
    var last := |trace| - 1;
    if last < 0 then false
    else if last == 0 then trace[0] == State(map[], map[])
    else Runs(h, trace[..last]) && Follows(h, trace[last - 1], trace[last])
  }

  // ---- the invariant ------------------------------------------------------

  /** What a file of each kind may hold. */
  ghost predicate FileOk(h: Hasher, n: string, body: Body) {
    if IsTempName(n) then body.Raw?
    else if IsSidecarName(n) then
      body.Torn? || (body.Sidecar? && exists b :: Names(h, n[..|n| - |SIDECAR|], b) && body.hashes == h.all(b))
    else body.Raw? && Names(h, n, body.bytes)
  }

  ghost predicate WriterOk(h: Hasher, s: State, w: Writer) {
    match w.phase
    case Checking => Announced(w.digest).Some?
    case Creating => Announced(w.digest).Some? && w.digest != ""
    case Streaming(tmp, got) =>
      && Announced(w.digest).Some? && w.digest != ""
      && IsTempName(tmp) && got <= w.source && (tmp in s.files ==> s.files[tmp] == Raw(got))
    case Rechecking(tmp, got) =>
      IsTempName(tmp) && Names(h, w.digest, got) && got == w.source && (tmp in s.files ==> s.files[tmp] == Raw(got))
    case Renaming(tmp, got) =>
      IsTempName(tmp) && Names(h, w.digest, got) && got == w.source && (tmp in s.files ==> s.files[tmp] == Raw(got))
    case OpeningSidecar(got) => Names(h, w.digest, got) && got == w.source
    case WritingSidecar(got) => Names(h, w.digest, got) && got == w.source
    case Done(r) =>
      && (r == Stored(true) ==> Names(h, w.digest, w.source))
      && (r == DigestMismatch ==> Announced(w.digest).Some? && !Names(h, w.digest, w.source))
      && (r == InvalidDigest <==> Announced(w.digest).None?)
  }

  ghost predicate TempsApart(s: State) {
    forall v, w :: v in s.writers && w in s.writers && v != w && TempOf(s.writers[v]).Some? ==>
      TempOf(s.writers[v]) != TempOf(s.writers[w])
  }

  ghost predicate Inv(h: Hasher, s: State) {
    && (forall n :: n in s.files ==> FileOk(h, n, s.files[n]))
    && (forall w :: w in s.writers ==> WriterOk(h, s, s.writers[w]))
    && TempsApart(s)
  }

  /** A step of writer `w` that changes no other writer's temp file. */
  lemma WriterStepKeeps(h: Hasher, s: State, w: nat, t: State)
    requires Inv(h, s) && w in s.writers && t.writers.Keys == s.writers.Keys
    requires forall v :: v in s.writers && v != w ==> t.writers[v] == s.writers[v]
    requires forall n :: n in t.files ==> FileOk(h, n, t.files[n])
    requires WriterOk(h, t, t.writers[w])
    requires TempOf(t.writers[w]) == None || TempOf(t.writers[w]) == TempOf(s.writers[w])
    requires forall n :: IsTempName(n) && Some(n) != TempOf(s.writers[w]) && n in t.files ==> n in s.files && t.files[n] == s.files[n]
    ensures Inv(h, t)
  {
    forall v | v in t.writers && v != w
      ensures WriterOk(h, t, t.writers[v])
    {
      assert WriterOk(h, s, s.writers[v]);
    }
  }

  lemma BeginKeeps(h: Hasher, s: State, step: Step)
    requires Inv(h, s) && step.Begin? && Enabled(s, step)
    ensures Inv(h, Apply(h, s, step))
  {
    var t := Apply(h, s, step);
    forall v | v in t.writers
      ensures WriterOk(h, t, t.writers[v])
    {
      if v != step.w { assert WriterOk(h, s, s.writers[v]); }
    }
  }

  lemma CheckKeeps(h: Hasher, s: State, step: Step)
    requires Inv(h, s) && step.CheckExists? && Enabled(s, step)
    ensures Inv(h, Apply(h, s, step))
  {
    WriterStepKeeps(h, s, step.w, Apply(h, s, step));
  }

  lemma CreateKeeps(h: Hasher, s: State, step: Step)
    requires Inv(h, s) && step.CreateTemp? && Enabled(s, step)
    ensures Inv(h, Apply(h, s, step))
  {
    var t := Apply(h, s, step);
    forall v | v in t.writers
      ensures WriterOk(h, t, t.writers[v])
    {
      assert WriterOk(h, s, s.writers[v]);
      if v != step.w { assert TempOf(s.writers[v]) != Some(step.name); }
    }
  }

  lemma ReadKeeps(h: Hasher, s: State, step: Step)
    requires Inv(h, s) && step.ReadChunk? && Enabled(s, step)
    ensures Inv(h, Apply(h, s, step))
  {
    assert WriterOk(h, s, s.writers[step.w]);
    WriterStepKeeps(h, s, step.w, Apply(h, s, step));
  }

  lemma VerifyKeeps(h: Hasher, s: State, step: Step)
    requires h.Sound() && Inv(h, s) && step.Verify? && Enabled(s, step)
    ensures Inv(h, Apply(h, s, step))
  {
    assert WriterOk(h, s, s.writers[step.w]);
    assert h.Sha256(s.writers[step.w].phase.got) != "";
    WriterStepKeeps(h, s, step.w, Apply(h, s, step));
  }

  lemma RecheckKeeps(h: Hasher, s: State, step: Step)
    requires Inv(h, s) && step.Recheck? && Enabled(s, step)
    ensures Inv(h, Apply(h, s, step))
  {
    assert WriterOk(h, s, s.writers[step.w]);
    WriterStepKeeps(h, s, step.w, Apply(h, s, step));
  }

  lemma RenameKeeps(h: Hasher, s: State, step: Step)
    requires h.Sound() && Inv(h, s) && step.RenameTemp? && Enabled(s, step)
    ensures Inv(h, Apply(h, s, step))
  {
    var w := s.writers[step.w];
    assert WriterOk(h, s, w);
    NamesAreBlobNames(h, w.digest, w.phase.got);
    WriterStepKeeps(h, s, step.w, Apply(h, s, step));
  }

  lemma OpenKeeps(h: Hasher, s: State, step: Step)
    requires Inv(h, s) && step.OpenSidecar? && Enabled(s, step)
    ensures Inv(h, Apply(h, s, step))
  {
    var w := s.writers[step.w];
    assert WriterOk(h, s, w);
    SidecarNames(w.digest);
    WriterStepKeeps(h, s, step.w, Apply(h, s, step));
  }

  lemma SidecarKeeps(h: Hasher, s: State, step: Step)
    requires h.Sound() && Inv(h, s) && step.WriteSidecar? && Enabled(s, step)
    ensures Inv(h, Apply(h, s, step))
  {
    var w := s.writers[step.w];
    assert WriterOk(h, s, w);
    SidecarNames(w.digest);
    WriterStepKeeps(h, s, step.w, Apply(h, s, step));
  }

  lemma FailKeeps(h: Hasher, s: State, step: Step)
    requires h.Sound() && Inv(h, s) && step.FailIo? && Enabled(s, step)
    ensures Inv(h, Apply(h, s, step))
  {
    assert WriterOk(h, s, s.writers[step.w]);
    WriterStepKeeps(h, s, step.w, Apply(h, s, step));
  }

  lemma RemoveKeeps(h: Hasher, s: State, step: Step)
    requires Inv(h, s) && step.RemoveFile?
    ensures Inv(h, Apply(h, s, step))
  {
    var t := Apply(h, s, step);
    forall v | v in t.writers
      ensures WriterOk(h, t, t.writers[v])
    {
      assert WriterOk(h, s, s.writers[v]);
    }
  }

  /** Every action of every writer, remover or crash keeps the invariant. */
  lemma StepKeeps(h: Hasher, s: State, step: Step)
    requires h.Sound() && Inv(h, s) && Enabled(s, step)
    ensures Inv(h, Apply(h, s, step))
  {
    match step
    case Begin(_, _, _) => BeginKeeps(h, s, step);
    case CheckExists(_) => CheckKeeps(h, s, step);
    case CreateTemp(_, _) => CreateKeeps(h, s, step);
    case ReadChunk(_, _) => ReadKeeps(h, s, step);
    case Verify(_) => VerifyKeeps(h, s, step);
    case Recheck(_) => RecheckKeeps(h, s, step);
    case RenameTemp(_) => RenameKeeps(h, s, step);
    case OpenSidecar(_) => OpenKeeps(h, s, step);
    case WriteSidecar(_, _) => SidecarKeeps(h, s, step);
    case FailIo(_) => FailKeeps(h, s, step);
    case RemoveFile(_) => RemoveKeeps(h, s, step);
    case Crash =>
  }

  lemma {:induction false} RunKeepsInv(h: Hasher, trace: seq<State>, i: nat)
    requires h.Sound() && Runs(h, trace) && i < |trace|
    ensures Inv(h, trace[i])
    decreases |trace|
  {
    var last := |trace| - 1;
    if i < last {
      RunKeepsInv(h, trace[..last], i);
    } else if i > 0 {
      RunKeepsInv(h, trace[..last], i - 1);
      var step :| Enabled(trace[i - 1], step) && trace[i] == Apply(h, trace[i - 1], step);
      StepKeeps(h, trace[i - 1], step);
    }
  }

  // ---- what every run guarantees ------------------------------------------

  /** The names `list` reports. */
  function Listed(s: State): set<string> {
    set n | n in s.files && !IsSidecarName(n) && !("." <= n)
  }

  /** Each listed blob's bytes hash to the digest it is listed under. */
  lemma ListedBlobsMatch(h: Hasher, trace: seq<State>, i: nat, n: string)
    requires h.Sound() && Runs(h, trace) && i < |trace| && n in Listed(trace[i])
    ensures trace[i].files[n].Raw? && Fits(h, n, trace[i].files[n].bytes)
  {
    RunKeepsInv(h, trace, i);
    assert IsTempName(n) ==> "." <= n;
    AnnouncedExact(h, n, trace[i].files[n].bytes);
  }

  /** And a blob that is there is listed, unless its name starts with a dot. */
  lemma BlobsAreListed(h: Hasher, trace: seq<State>, i: nat, n: string, b: Bytes)
    requires h.Sound() && Runs(h, trace) && i < |trace| && n in trace[i].files && Fits(h, n, b)
    ensures trace[i].files[n] == Raw(b)
    ensures n in Listed(trace[i]) <==> !("." <= n)
  {
    RunKeepsInv(h, trace, i);
    AnnouncedExact(h, n, b);
    NamesAreBlobNames(h, n, b);
    assert h.Sha256(trace[i].files[n].bytes) == h.Sha256(b);
  }

  /** A blob holds the same bytes whenever it is there: no overwrite by a
      second writer, no partial content, not even after a delete and a new put. */
  lemma BlobBytesNeverChange(h: Hasher, trace: seq<State>, i: nat, j: nat, n: string)
    requires h.Sound() && Runs(h, trace) && i < |trace| && j < |trace| && IsBlobName(n)
    requires n in trace[i].files && n in trace[j].files
    ensures trace[i].files[n] == trace[j].files[n]
  {
    RunKeepsInv(h, trace, i);
    RunKeepsInv(h, trace, j);
    var a, b := trace[i].files[n].bytes, trace[j].files[n].bytes;
    assert h.Sha256(a) == h.Sha256(b);
  }

  /** `hashes_for`, reading the sidecar in one state and, when that gives
      nothing, the blob in another. */
  function HashesFor(h: Hasher, atSidecar: State, atBlob: State, digest: string): Option<Hashes>
    requires IsBlobName(digest)
  {
    var n := SidecarOf(digest);
    if n in atSidecar.files && atSidecar.files[n].Sidecar? then Some(atSidecar.files[n].hashes)
    else if digest in atBlob.files && atBlob.files[digest].Raw? then Some(h.all(atBlob.files[digest].bytes))
    else None
  }

  /** The answer for a present blob is what its bytes give, however stale the
      sidecar and whatever happened between the two reads. */
  lemma HashesAgreeWithBytes(h: Hasher, trace: seq<State>, i: nat, j: nat, digest: string)
    requires h.Sound() && Runs(h, trace) && i < |trace| && j < |trace| && IsBlobName(digest)
    requires digest in trace[j].files
    ensures trace[j].files[digest].Raw?
    ensures HashesFor(h, trace[i], trace[j], digest) == Some(h.all(trace[j].files[digest].bytes))
  {
    RunKeepsInv(h, trace, i);
    RunKeepsInv(h, trace, j);
    SidecarNames(digest);
    var n, b := SidecarOf(digest), trace[j].files[digest].bytes;
    if n in trace[i].files && trace[i].files[n].Sidecar? {
      var c :| Names(h, digest, c) && trace[i].files[n].hashes == h.all(c);
      assert h.Sha256(b) == h.Sha256(c);
    }
  }

  /** The call has ended saying that the blob is there already. */
  predicate SaidPresent(s: State, w: nat, digest: string) {
    w in s.writers && s.writers[w].digest == digest && s.writers[w].phase == Done(Stored(false))
  }

  lemma SaidPresentStep(h: Hasher, s: State, step: Step, w: nat, digest: string)
    requires Enabled(s, step) && SaidPresent(Apply(h, s, step), w, digest)
    ensures SaidPresent(s, w, digest) || Exists(s, digest)
  {
  }

  /** It was there at some point before. */
  lemma {:induction false} PresentWasSeen(h: Hasher, trace: seq<State>, i: nat, w: nat, digest: string)
    requires Runs(h, trace) && i < |trace| && SaidPresent(trace[i], w, digest)
    ensures exists k :: 0 <= k <= i && Exists(trace[k], digest)
    decreases |trace|
  {
    var last := |trace| - 1;
    if i < last {
      PresentWasSeen(h, trace[..last], i, w, digest);
      var k :| 0 <= k <= i && Exists(trace[..last][k], digest);
      assert trace[..last][k] == trace[k];
    } else if i > 0 {
      var step :| Enabled(trace[i - 1], step) && trace[i] == Apply(h, trace[i - 1], step);
      SaidPresentStep(h, trace[i - 1], step, w, digest);
      if SaidPresent(trace[i - 1], w, digest) {
        PresentWasSeen(h, trace[..last], i - 1, w, digest);
        var k :| 0 <= k <= i - 1 && Exists(trace[..last][k], digest);
        assert trace[..last][k] == trace[k];
      }
    }
  }

  /** What a finished call says about its input and about the directory. */
  lemma PutResultsAreRight(h: Hasher, trace: seq<State>, i: nat, w: nat)
    requires h.Sound() && Runs(h, trace) && i < |trace| && w in trace[i].writers && trace[i].writers[w].phase.Done?
    ensures var call := trace[i].writers[w];
      && (call.phase.result == InvalidDigest <==> Malformed(call.digest))
      && (call.phase.result == Stored(true) ==> Fits(h, call.digest, call.source))
      && (call.phase.result == DigestMismatch ==> !Fits(h, call.digest, call.source))
      && (call.phase.result == Stored(false) ==> exists k :: 0 <= k <= i && Exists(trace[k], call.digest))
  {
    RunKeepsInv(h, trace, i);
    assert WriterOk(h, trace[i], trace[i].writers[w]);
    var call := trace[i].writers[w];
    AnnouncedExact(h, call.digest, call.source);
    if call.phase.result == Stored(false) { PresentWasSeen(h, trace, i, w, call.digest); }
  }

  /** The rename makes the whole input visible at once, under its digest. */
  lemma RenamePublishes(h: Hasher, s: State, w: nat)
    requires h.Sound() && Inv(h, s) && Enabled(s, RenameTemp(w))
    requires Apply(h, s, RenameTemp(w)).writers[w].phase.OpeningSidecar?
    ensures var t, digest := Apply(h, s, RenameTemp(w)), s.writers[w].digest;
      && digest in t.files && t.files[digest] == Raw(s.writers[w].source)
      && (digest in s.files ==> s.files[digest] == t.files[digest])
      && (forall n :: IsBlobName(n) && n != digest ==> (n in t.files <==> n in s.files))
  {
    var call := s.writers[w];
    assert WriterOk(h, s, call);
    NamesAreBlobNames(h, call.digest, call.source);
    if call.digest in s.files {
      assert FileOk(h, call.digest, s.files[call.digest]);
      assert h.Sha256(s.files[call.digest].bytes) == h.Sha256(call.source);
    }
  }

  // ---- one call on its own ------------------------------------------------

  function Replay(h: Hasher, s: State, steps: seq<Step>): Option<State>
    decreases |steps|
  {
    if steps == [] then Some(s)
    else
      var last := |steps| - 1;
      match Replay(h, s, steps[..last])
      case None => None
      case Some(t) => if Enabled(t, steps[last]) then Some(Apply(h, t, steps[last])) else None
  }

  /** One call, with index 0, and nobody else. */
  ghost function Solo(files: map<string, Body>, digest: string, source: Bytes, phase: Phase): State {
    State(files, map[0 := Writer(digest, source, phase)])
  }

  lemma SoloStep(h: Hasher, s: State, steps: seq<Step>, from: State, step: Step, to: State)
    requires Replay(h, s, steps) == Some(from) && Enabled(from, step)
    requires from.writers.Keys == {0} && to.writers.Keys == {0}
    requires Apply(h, from, step).writers.Keys == {0}
    requires Apply(h, from, step).files == to.files && Apply(h, from, step).writers[0] == to.writers[0]
    ensures Replay(h, s, steps + [step]) == Some(to)
  {
    assert (steps + [step])[..|steps|] == steps;
    assert Apply(h, from, step).writers == to.writers;
  }

  lemma SoloCheck(h: Hasher, s: State, steps: seq<Step>, files: map<string, Body>, digest: string, source: Bytes)
    requires Replay(h, s, steps) == Some(Solo(files, digest, source, Checking))
    ensures Replay(h, s, steps + [CheckExists(0)]) ==
      Some(Solo(files, digest, source, if digest in files || IsDirectory(digest) then Done(Stored(false)) else Creating))
  {
    SoloStep(h, s, steps, Solo(files, digest, source, Checking), CheckExists(0),
             Solo(files, digest, source, if digest in files || IsDirectory(digest) then Done(Stored(false)) else Creating));
  }

  lemma SoloRead(h: Hasher, s: State, steps: seq<Step>, files: map<string, Body>, digest: string, source: Bytes,
                 tmp: string, m: nat, n: nat)
    requires tmp in files && 0 < n <= CHUNK && m + n <= |source|
    requires Replay(h, s, steps) == Some(Solo(files, digest, source, Streaming(tmp, source[..m])))
    ensures Replay(h, s, steps + [ReadChunk(0, n)]) ==
      Some(Solo(files[tmp := Raw(source[..m + n])], digest, source, Streaming(tmp, source[..m + n])))
  {
    SoloStep(h, s, steps, Solo(files, digest, source, Streaming(tmp, source[..m])), ReadChunk(0, n),
             Solo(files[tmp := Raw(source[..m + n])], digest, source, Streaming(tmp, source[..m + n])));
  }

  lemma SoloVerify(h: Hasher, s: State, steps: seq<Step>, files: map<string, Body>, digest: string, source: Bytes, tmp: string)
    requires Announced(digest).Some? && Announced(digest).value != ""
    requires Replay(h, s, steps) == Some(Solo(files, digest, source, Streaming(tmp, source)))
    ensures Replay(h, s, steps + [Verify(0)]) ==
      Some(if Announced(digest).value != h.Sha256(source)
           then Solo(files - {tmp}, digest, source, Done(DigestMismatch))
           else Solo(files, digest, source, Rechecking(tmp, source)))
  {
    SoloStep(h, s, steps, Solo(files, digest, source, Streaming(tmp, source)), Verify(0),
             if Announced(digest).value != h.Sha256(source)
             then Solo(files - {tmp}, digest, source, Done(DigestMismatch))
             else Solo(files, digest, source, Rechecking(tmp, source)));
  }

  lemma SoloRecheck(h: Hasher, s: State, steps: seq<Step>, files: map<string, Body>, digest: string, source: Bytes, tmp: string)
    requires !IsDirectory(digest)
    requires Replay(h, s, steps) == Some(Solo(files, digest, source, Rechecking(tmp, source)))
    ensures Replay(h, s, steps + [Recheck(0)]) ==
      Some(if digest in files then Solo(files - {tmp}, digest, source, Done(Stored(false)))
           else Solo(files, digest, source, Renaming(tmp, source)))
  {
    SoloStep(h, s, steps, Solo(files, digest, source, Rechecking(tmp, source)), Recheck(0),
             if digest in files then Solo(files - {tmp}, digest, source, Done(Stored(false)))
             else Solo(files, digest, source, Renaming(tmp, source)));
  }

  /** The answer of one undisturbed call. */
  ghost function PutOutcome(h: Hasher, files: map<string, Body>, digest: string, source: Bytes, tmp: string): PutResult {
    if Malformed(digest) then InvalidDigest
    else if Exists(State(files, map[]), digest) then Stored(false)
    else if !Fits(h, digest, source) then DigestMismatch
    else Stored(tmp != digest)
  }

  /** For a digest with an algorithm name, by its two sides, the directory and
      the bytes; the name itself does not matter. */
  lemma PutOfPair(h: Hasher, files: map<string, Body>, algo: string, hex: string, source: Bytes, tmp: string)
    requires ':' !in algo && IsTempName(tmp)
    ensures var digest := algo + ":" + hex; var r := PutOutcome(h, files, digest, source, tmp);
      && (r == InvalidDigest <==> algo == "" || hex == "")
      && (r == Stored(false) <==> algo != "" && hex != "" && digest in files)
      && (r == DigestMismatch <==> algo != "" && hex != "" && digest !in files && !Spells(hex, h.Sha256(source)))
      && (r == Stored(true) <==> algo != "" && hex != "" && digest !in files && Spells(hex, h.Sha256(source)))
  {
    var digest := algo + ":" + hex;
    PairFits(h, algo, hex, source);
    assert digest[|algo|] == ':';
    assert tmp != digest by { NoColonInTemp(tmp); }
  }

  lemma NoColonInTemp(tmp: string)
    requires IsTempName(tmp)
    ensures forall i :: 0 <= i < |tmp| ==> tmp[i] != ':'
  {
    assert forall i :: 0 <= i < |UPLOAD| ==> tmp[i] == UPLOAD[i];
  }

  /** For one without: the SHA-256 text is expected as it stands. */
  lemma PutOfBare(h: Hasher, files: map<string, Body>, digest: string, source: Bytes, tmp: string)
    requires h.Sound() && ':' !in digest && IsTempName(tmp)
    ensures var r := PutOutcome(h, files, digest, source, tmp);
      && (r == Stored(false) <==> digest in files || digest in {"", ".", ".."})
      && (r == DigestMismatch <==> digest !in files && digest !in {"", ".", ".."} && digest != h.Sha256(source))
      && (r == Stored(true) <==> digest !in files && digest !in {"", ".", ".."} && digest == h.Sha256(source))
  {
    SplitsAt(digest);
    AnnouncedExact(h, digest, source);
    if Fits(h, digest, source) { NamesAreBlobNames(h, digest, source); }
  }

  /** The registries' own form is accepted. */
  lemma PutCanonical(h: Hasher, files: map<string, Body>, source: Bytes, tmp: string)
    requires h.Sound() && IsTempName(tmp) && "sha256:" + h.Sha256(source) !in files
    ensures PutOutcome(h, files, "sha256:" + h.Sha256(source), source, tmp) == Stored(true)
  {
    assert "sha256" + ":" + h.Sha256(source) == "sha256:" + h.Sha256(source);
    PutOfPair(h, files, "sha256", h.Sha256(source), source, tmp);
  }

  class BlobDirectory {
    var files: map<string, Body>

    /** One call with nobody else about. `tmp` is the random temp name; it is
        the digest itself only when no content matches it. The call is a schedule
        of the machine, and its result follows from the bytes and the directory. */
    method PutIfAbsent(h: Hasher, digest: string, source: Bytes, tmp: string)
      returns (r: PutResult, ghost steps: seq<Step>)
      requires IsTempName(tmp)
      modifies this
      ensures Replay(h, State(old(files), map[]), steps) == Some(Solo(files, digest, source, Done(r)))
      ensures r == PutOutcome(h, old(files), digest, source, tmp)
      ensures r == InvalidDigest || (r == Stored(false) && tmp != digest) ==> files == old(files)
      ensures r == DigestMismatch ==> files == old(files) - {tmp}
      ensures r == Stored(true) ==>
                files == (old(files) - {tmp})[digest := Raw(source)][SidecarOf(digest) := Sidecar(h.all(source))]
    {
      AnnouncedExact(h, digest, source);
      ghost var s := State(files, map[]);
      steps := [Begin(0, digest, source)];
      assert steps[..0] == [];
      var announced := Announced(digest);
      if announced.None? {
        assert Apply(h, s, steps[0]) == Solo(files, digest, source, Done(InvalidDigest));
        return InvalidDigest, steps;
      }
      assert Replay(h, s, steps) == Some(Solo(files, digest, source, Checking));
      SoloCheck(h, s, steps, files, digest, source);
      steps := steps + [CheckExists(0)];
      if digest in files || IsDirectory(digest) {
        return Stored(false), steps;
      }
      steps := Stream(h, digest, source, tmp, s, steps);
      SoloVerify(h, s, steps, files, digest, source, tmp);
      steps := steps + [Verify(0)];
      if announced.value != "" && h.Sha256(source) != announced.value {
        files := files - {tmp};
        return DigestMismatch, steps;
      }
      SoloRecheck(h, s, steps, files, digest, source, tmp);
      steps := steps + [Recheck(0)];
      if digest in files || IsDirectory(digest) {
        files := files - {tmp};
        return Stored(false), steps;
      }
      steps := Publish(h, digest, source, tmp, s, steps);
      r := Stored(true);
    }

    /** Reads the source in parts of at most CHUNK bytes into the temp file. */
    method Stream(h: Hasher, digest: string, source: Bytes, tmp: string, ghost s: State, ghost before: seq<Step>)
      returns (ghost steps: seq<Step>)
      requires IsTempName(tmp)
      requires Replay(h, s, before) == Some(Solo(files, digest, source, Creating))
      modifies this
      ensures files == old(files)[tmp := Raw(source)]
      ensures Replay(h, s, steps) == Some(Solo(files, digest, source, Streaming(tmp, source)))
    {
      SoloStep(h, s, before, Solo(files, digest, source, Creating), CreateTemp(0, tmp),
               Solo(files[tmp := Raw([])], digest, source, Streaming(tmp, [])));
      files := files[tmp := Raw([])];
      steps := ReadAll(h, digest, source, tmp, s, before + [CreateTemp(0, tmp)]);
    }

    method ReadAll(h: Hasher, digest: string, source: Bytes, tmp: string, ghost s: State, ghost before: seq<Step>)
      returns (ghost steps: seq<Step>)
      requires tmp in files && files[tmp] == Raw([])
      requires Replay(h, s, before) == Some(Solo(files, digest, source, Streaming(tmp, [])))
      modifies this
      ensures files == old(files)[tmp := Raw(source)]
      ensures Replay(h, s, steps) == Some(Solo(files, digest, source, Streaming(tmp, source)))
    {
      steps := before;
      var got: Bytes := [];
      assert files == files[tmp := Raw([])];
      while |got| < |source|
        invariant |got| <= |source| && got == source[..|got|]
        invariant files == old(files)[tmp := Raw(got)]
        invariant Replay(h, s, steps) == Some(Solo(files, digest, source, Streaming(tmp, got)))
      {
        var rest := |source| - |got|;
        // A read may return less than it was asked for.
        var most := if rest < CHUNK then rest else CHUNK;
        assert 0 < most <= most;
        var n: nat :| 0 < n <= most;
        SoloRead(h, s, steps, files, digest, source, tmp, |got|, n);
        steps := steps + [ReadChunk(0, n)];
        got := source[..|got| + n];
        files := files[tmp := Raw(got)];
      }
      assert got == source;
    }

    /** Renames the temp file over the digest's name and writes the sidecar. */
    method Publish(h: Hasher, digest: string, source: Bytes, tmp: string, ghost s: State, ghost before: seq<Step>)
      returns (ghost steps: seq<Step>)
      requires tmp in files && files[tmp] == Raw(source) && !IsDirectory(digest)
      requires Replay(h, s, before) == Some(Solo(files, digest, source, Renaming(tmp, source)))
      modifies this
      ensures files == (old(files) - {tmp})[digest := Raw(source)][SidecarOf(digest) := Sidecar(h.all(source))]
      ensures Replay(h, s, steps) == Some(Solo(files, digest, source, Done(Stored(true))))
    {
      var renamed := (files - {tmp})[digest := files[tmp]];
      SoloStep(h, s, before, Solo(files, digest, source, Renaming(tmp, source)), RenameTemp(0),
               Solo(renamed, digest, source, OpeningSidecar(source)));
      steps := before + [RenameTemp(0)];
      files := renamed;
      var n := SidecarOf(digest);
      SoloStep(h, s, steps, Solo(files, digest, source, OpeningSidecar(source)), OpenSidecar(0),
               Solo(files[n := Torn], digest, source, WritingSidecar(source)));
      steps := steps + [OpenSidecar(0)];
      files := files[n := Torn];
      SoloStep(h, s, steps, Solo(files, digest, source, WritingSidecar(source)), WriteSidecar(0, true),
               Solo(files[n := Sidecar(h.all(source))], digest, source, Done(Stored(true))));
      steps := steps + [WriteSidecar(0, true)];
      files := files[n := Sidecar(h.all(source))];
    }
  }
}
