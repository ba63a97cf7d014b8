/**
 Adapter metadata (internal/cache/meta.go, manager.go): what a fetch records, when a
 copy is due for a check, and when an origin still has the same content.
 */
module CacheMeta {
  import opened Common
  import opened Disk
  import opened CacheMachine

  /** An origin's answer to `Head`. */
  datatype Head = Head(etag: string, revision: string)

  /**
   How writing a metadata file ends. `os.WriteFile` truncates before it writes, so a
   failing write may leave the file as it was, or unreadable with some size.
   */
  datatype MetaWrite = Written | Unopened | Broken(size: nat)

  // ---------------------------------------------------------------------
  // As the code computes it
  // ---------------------------------------------------------------------

  function ContentId(etag: string, revision: string): string {
    if etag != "" then etag else revision
  }

  /** `time.Since(FetchedAt) > TTLSeconds * time.Second`, in nanoseconds. */
  predicate IsExpired(m: Meta, now: int) {
    if m.ttlSeconds <= 0 then false else now - m.fetchedAt > m.ttlSeconds * 1_000_000_000
  }

  /** The head's content ID is known on both sides and the same. */
  predicate Unchanged(h: Head, m: Meta) {
    var newId, oldId := ContentId(h.etag, h.revision), ContentId(m.etag, m.revision);
    newId != "" && oldId != "" && newId == oldId
  }

  /** The metadata file after writing `stamp` over it; none when it is as it was. */
  function AfterWrite(w: MetaWrite, stamp: File): Option<File> {
    match w
    case Written => Some(stamp)
    case Unopened => None
    case Broken(size) => Some(File(size, stamp.modTime, Payload(0)))
  }

  /** A directory with its metadata file replaced, if it is. */
  function WithMeta(dir: Dir, meta: Option<File>): Dir {
    if meta.Some? then dir[META := meta.value] else dir
  }

  // ---------------------------------------------------------------------
  // What it means
  // ---------------------------------------------------------------------

  /** Both sides have an identity, and it is the same: the ETag where there is one, else the revision. */
  ghost predicate SameContent(h: Head, m: Meta) {
    || (h.etag != "" && m.etag != "" && h.etag == m.etag)
    || (h.etag != "" && m.etag == "" && h.etag == m.revision)
    || (h.etag == "" && m.etag != "" && h.revision == m.etag)
    || (h.etag == "" && m.etag == "" && h.revision != "" && h.revision == m.revision)
  }

  lemma {:induction false} UnchangedIffSameContent(h: Head, m: Meta)
    ensures Unchanged(h, m) <==> SameContent(h, m)
  {
  }

  /** An origin that repeats what was recorded of it is recognised if and only if it identified its content at all. */
  lemma {:induction false} RepeatedIdentityIff(m: Meta)
    ensures SameContent(Head(m.etag, m.revision), m) <==> m.etag != "" || m.revision != ""
  {
  }

  /** Another ETag, or no identity on either side, counts as another content. */
  lemma {:induction false} OtherIdentityDiffers(h: Head, m: Meta)
    ensures h.etag != "" && m.etag != "" && h.etag != m.etag ==> !SameContent(h, m)
    ensures (h.etag == "" && h.revision == "") || (m.etag == "" && m.revision == "") ==> !SameContent(h, m)
  {
  }

  /** The directory's metadata was fetched longer ago than its own positive time to live, in nanoseconds. */
  ghost predicate Due(dir: Dir, now: int) {
    && META in dir && dir[META].body.Stamp?
    && var m := dir[META].body.meta;
       m.ttlSeconds > 0 && now > m.fetchedAt + m.ttlSeconds * 1_000_000_000
  }

  lemma {:induction false} ExpiredIffDue(dir: Dir, now: int)
    ensures (ReadMeta(dir).Some? && IsExpired(ReadMeta(dir).value, now)) <==> Due(dir, now)
  {
  }

  /** `secs` is `ttl` nanoseconds in whole seconds, rounded toward zero. */
  ghost predicate WholeSeconds(ttl: int, secs: int) {
    if ttl >= 0 then ttl - 1_000_000_000 < secs * 1_000_000_000 <= ttl
    else ttl <= secs * 1_000_000_000 < ttl + 1_000_000_000
  }

  /** The file records a fetch from `origin` at `now` of the content that the origin named so, to be trusted for `ttl` nanoseconds. */
  ghost predicate Records(file: File, origin: string, etag: string, revision: string, now: int, ttl: int) {
    && file.body.Stamp?
    && var m := file.body.meta;
       m.origin == origin && m.etag == etag && m.revision == revision && m.fetchedAt == now && WholeSeconds(ttl, m.ttlSeconds)
  }

  /**
   A fresh copy is due for a check once the whole seconds of its time to live have passed,
   and never if there are none.
   */
  lemma {:induction false} RecordedIsDueIff(dir: Dir, origin: string, etag: string, revision: string, at: int, ttl: int, now: int)
    requires META in dir && Records(dir[META], origin, etag, revision, at, ttl)
    ensures ttl < 1_000_000_000 ==> !Due(dir, now)
    ensures ttl >= 1_000_000_000 ==> exists secs :: WholeSeconds(ttl, secs) && secs > 0 && (Due(dir, now) <==> now - at > secs * 1_000_000_000)
    ensures ttl >= 1_000_000_000 && now - at > ttl ==> Due(dir, now)
    ensures now - at <= ttl - 1_000_000_000 ==> !Due(dir, now)
  {
    var secs := dir[META].body.meta.ttlSeconds;
    assert WholeSeconds(ttl, secs);
  }

  /** `e` is `d` with the metadata of `id` rewritten to `m`, as far as the write got; everything else is as it was. */
  ghost predicate Rewritten(d: Tree, e: Tree, id: string, w: MetaWrite, m: Meta, size: nat) {
    && SameBut(d, e, {id}) && (id in d <==> id in e)
    && (id in d ==>
         && (forall n :: n != META ==> (n in d[id] <==> n in e[id]) && (n in d[id] ==> e[id][n] == d[id][n]))
         && (w.Written? ==> META in e[id] && e[id][META].body == Stamp(m) && e[id][META].size == size)
         && (w.Unopened? ==> e[id] == d[id])
         && (w.Broken? ==> META in e[id] && !e[id][META].body.Stamp? && e[id][META].size == w.size))
  }

  lemma {:induction false} WithMetaRewrites(d: Tree, id: string, w: MetaWrite, m: Meta, size: nat, now: int)
    ensures Rewritten(d, if id in d then d[id := WithMeta(d[id], AfterWrite(w, File(size, now, Stamp(m))))] else d, id, w, m, size)
  {
  }
}
