/** A file system that may crash.  A name in a directory refers to a file (an inode); until the
  * directory is synced, a crash may bring back any file the name referred to since its last sync.
  * A file that was never synced may come back with any contents. */
module Disk {
  import opened Base

  datatype Content =
    | Segment(data: seq<byte>)  // a .ts file
    | Playlist(count: nat)      // index.m3u8 listing 00000.ts up to count
    | Torn                      // anything else

  /** The names in one segment directory; a temporary name is never reused. */
  datatype Name = Ts(idx: nat) | Index | Tmp(n: nat)

  type Inode = nat

  datatype File = File(content: Content, synced: bool)

  /** `dir` is what programs see.  `stable` gives, per name, every file a crash may bring back;
    * None is no file at all. */
  datatype Fs = Fs(
    files: seq<File>,
    dir: map<Name, Inode>,
    stable: map<Name, set<Option<Inode>>>,
    tmps: nat)

  const EMPTY: Fs := Fs([], map[], map[], 0)

  function Current(fs: Fs, n: Name): Option<Inode>
  {
    if n in fs.dir then Some(fs.dir[n]) else None
  }

  function Survivors(fs: Fs, n: Name): set<Option<Inode>>
  {
    if n in fs.stable then fs.stable[n] else {Current(fs, n)}
  }

  /** A name changes what it refers to; the old answers stay possible until the next sync. */
  function Redirect(fs: Fs, n: Name, to: Option<Inode>): Fs
  {
    fs.(dir := if to.Some? then fs.dir[n := to.value] else fs.dir - {n},
        stable := fs.stable[n := Survivors(fs, n) + {to}])
  }

  // ------------------------------------------------------------- operations

  /** mkstemp */
  function CreateTmp(fs: Fs): Fs
  {
    Redirect(fs.(files := fs.files + [File(Torn, false)], tmps := fs.tmps + 1), Tmp(fs.tmps), Some(|fs.files|))
  }

  /** Part or all of the data has been written; not yet durable. */
  function Write(fs: Fs, i: Inode, c: Content): Fs
  {
    if i < |fs.files| then fs.(files := fs.files[i := File(c, false)]) else fs
  }

  function SyncFile(fs: Fs, i: Inode): Fs
  {
    if i < |fs.files| then fs.(files := fs.files[i := fs.files[i].(synced := true)]) else fs
  }

  function Rename(fs: Fs, from: Name, to: Name): Fs
  {
    Redirect(Redirect(fs, to, Current(fs, from)), from, None)
  }

  function Unlink(fs: Fs, n: Name): Fs
  {
    Redirect(fs, n, None)
  }

  function SyncDir(fs: Fs): Fs
  {
    fs.(stable := map[])
  }

  // ------------------------------------------------------------------ crash

  /** What may be found after a crash: for each name, the contents of some file that survives. */
  type Image = map<Name, Content>

  ghost predicate MayLeave(fs: Fs, img: Image)
  {
    && (forall n :: n in img ==> exists o :: o in Survivors(fs, n) && Holds(fs, o, img[n]))
    && (forall n :: n !in img ==> None in Survivors(fs, n))
  }

  predicate Holds(fs: Fs, o: Option<Inode>, c: Content)
  {
    o.Some? && o.value < |fs.files| && (fs.files[o.value].synced ==> fs.files[o.value].content == c)
  }

  /** The promise of publication: a playlist found on the card lists a prefix of the segments, each
    * of them there and complete. */
  ghost predicate Playable(img: Image, segments: seq<seq<byte>>)
  {
    Index in img ==>
      && img[Index].Playlist?
      && img[Index].count <= |segments|
      && forall i :: 0 <= i < img[Index].count ==> Ts(i) in img && img[Ts(i)] == Segment(segments[i])
  }

  ghost predicate CrashSafe(fs: Fs, segments: seq<seq<byte>>)
  {
    forall img: Image :: MayLeave(fs, img) ==> Playable(img, segments)
  }

  // ------------------------------------------------ a sufficient invariant

  /** The file is synced and holds c. */
  predicate Durable(fs: Fs, o: Option<Inode>, c: Content)
  {
    o.Some? && o.value < |fs.files| && fs.files[o.value] == File(c, true)
  }

  /** Whatever a crash brings back for the segment is complete. */
  ghost predicate SegmentSafe(fs: Fs, idx: nat, data: seq<byte>)
  {
    forall o :: o in Survivors(fs, Ts(idx)) ==> Durable(fs, o, Segment(data))
  }

  ghost predicate IndexSafe(fs: Fs, count: nat)
  {
    forall o :: o in Survivors(fs, Index) ==>
      o == None || exists k: nat :: k <= count && Durable(fs, o, Playlist(k))
  }

  /** The first `count` segments are safe, and no surviving playlist lists more. */
  ghost predicate Published(fs: Fs, segments: seq<seq<byte>>, count: nat)
    requires count <= |segments|
  {
    && (forall i :: 0 <= i < count ==> SegmentSafe(fs, i, segments[i]))
    && IndexSafe(fs, count)
  }

  lemma PublishedIsCrashSafe(fs: Fs, segments: seq<seq<byte>>, count: nat)
    requires count <= |segments| && Published(fs, segments, count)
    ensures CrashSafe(fs, segments)
  {
    forall img: Image | MayLeave(fs, img) ensures Playable(img, segments) {
      if Index in img {
        var o :| o in Survivors(fs, Index) && Holds(fs, o, img[Index]);
        var k: nat :| k <= count && Durable(fs, o, Playlist(k));
        forall i | 0 <= i < img[Index].count
          ensures Ts(i) in img && img[Ts(i)] == Segment(segments[i])
        {
          assert SegmentSafe(fs, i, segments[i]);
          if Ts(i) in img {
            var p :| p in Survivors(fs, Ts(i)) && Holds(fs, p, img[Ts(i)]);
          }
        }
      }
    }
  }
}
