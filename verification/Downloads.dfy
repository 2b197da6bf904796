/** Downloads by byte ranges: the client's state machine and the range server it talks to. */
module Downloads {
  import opened Ordering
  import opened Wrappers

  // ---------------------------------------------------------------- data

  type Path = seq<string>

  datatype Reason = OutOfOrder | BadBase64 | RangeSizeMismatch | FileSizeMismatch | HashMismatch

  datatype Status = Downloading | Completed | Failed(reason: Reason)

  datatype Key = Key(session: string, contentId: string)

  datatype Download = Download(contentHash: string, size: int, contentType: string, next: int, status: Status)

  /** `data` is what the base64 text decodes to, if it decodes. */
  datatype Response = Response(start: int, end: int, data: Option<Bytes>)

  datatype DownloadError = NotStarted | NegativeStart | EmptyRange | NoSuchContent | BeyondTheEnd

  datatype World = World(downloads: map<Key, Download>, files: map<Path, Bytes>)

  predicate Blank(c: char) {
    c == ' ' || '\t' <= c <= '\r' || '\U{1c}' <= c <= '\U{1f}'
  }

  function StripLeft(s: string): string {
    if s != "" && Blank(s[0]) then StripLeft(s[1..]) else s
  }

  function StripRight(s: string): string {
    if s != "" && Blank(s[|s| - 1]) then StripRight(s[..|s| - 1]) else s
  }

  function FinalPath(contentHash: string): (p: Path)
    ensures p != []
  {
    var n := Lower(StripRight(StripLeft(contentHash)));
    if |n| <= 64 then [n] else if |n| < 66 then [n[..2], n[2..]] else [n[..2], n[2..66]]
  }

  function PartialPath(contentHash: string): Path {
    var p := FinalPath(contentHash);
    p[|p| - 1 := p[|p| - 1] + ".part"]
  }

  // ---------------------------------------------------------------- the client

  function Start(w: World, key: Key, contentHash: string, size: int, contentType: string): World {
    if key in w.downloads then w
    else World(w.downloads[key := Download(contentHash, size, contentType, 0, Downloading)],
               w.files[PartialPath(contentHash) := []])
  }

  function NextRequest(w: World, key: Key, range: int): Result<Option<(int, int)>, DownloadError> {
    if key !in w.downloads then Err(NotStarted)
    else
      var d := w.downloads[key];
      if !d.status.Downloading? || d.next >= d.size then Ok(None)
      else Ok(Some((d.next, if d.next + range < d.size then d.next + range else d.size)))
  }

  function WithStatus(w: World, key: Key, s: Status): World
    requires key in w.downloads
  {
    w.(downloads := w.downloads[key := w.downloads[key].(status := s)])
  }

  /** The check at the end: size, then hash, then the move to the final place. */
  function Complete(hash: Bytes -> string, w: World, key: Key): World
    requires key in w.downloads && PartialPath(w.downloads[key].contentHash) in w.files
  {
    var d := w.downloads[key];
    var partial := PartialPath(d.contentHash);
    var content := w.files[partial];
    if |content| != d.size then WithStatus(w, key, Failed(FileSizeMismatch))
    else if hash(content) != d.contentHash then WithStatus(w, key, Failed(HashMismatch))
    else WithStatus(w.(files := (w.files - {partial})[FinalPath(d.contentHash) := content]), key, Completed)
  }

  function Appended(files: map<Path, Bytes>, p: Path, data: Bytes): map<Path, Bytes> {
    files[p := (if p in files then files[p] else []) + data]
  }

  /** The state with a range appended, before the check at the end. */
  function Grown(w: World, key: Key, end: int, data: Bytes): World
    requires key in w.downloads
  {
    var d := w.downloads[key];
    World(w.downloads[key := d.(next := end)], Appended(w.files, PartialPath(d.contentHash), data))
  }

  /** A range that fits is appended, and the download ends once enough has come. */
  function Take(hash: Bytes -> string, w: World, key: Key, end: int, data: Bytes): World
    requires key in w.downloads
  {
    var d := w.downloads[key];
    var grown := Grown(w, key, end, data);
    if end >= d.size then Complete(hash, grown, key) else grown
  }

  function Respond(hash: Bytes -> string, w: World, key: Key, r: Response): Result<World, DownloadError> {
    if key !in w.downloads then Err(NotStarted)
    else
      var d := w.downloads[key];
      if !d.status.Downloading? then Ok(w)
      else if r.start != d.next then Ok(WithStatus(w, key, Failed(OutOfOrder)))
      else if r.data.None? then Ok(WithStatus(w, key, Failed(BadBase64)))
      else if r.end != r.start + |r.data.value| then Ok(WithStatus(w, key, Failed(RangeSizeMismatch)))
      else Ok(Take(hash, w, key, r.end, r.data.value))
  }

  // ---------------------------------------------------------------- the server

  datatype Stored = Stored(size: int, file: Option<Bytes>)

  function Clip(i: int, n: nat): nat {
    if i < 0 then 0 else if i > n then n else i
  }

  /** `read_content_range`: a seek and a read of at most that much. */
  function ReadRange(stored: Option<Stored>, start: int, end: int): Result<Response, DownloadError> {
    if start < 0 then Err(NegativeStart)
    else if end <= start then Err(EmptyRange)
    else if stored.None? || stored.value.file.None? then Err(NoSuchContent)
    else if end > stored.value.size then Err(BeyondTheEnd)
    else
      var file := stored.value.file.value;
      var data := file[Clip(start, |file|)..Clip(end, |file|)];
      Ok(Response(start, start + |data|, Some(data)))
  }

  /** What an honest holder of the content answers is exactly the bytes asked for. */
  lemma HonestRange(content: Bytes, start: int, end: int)
    requires 0 <= start < end <= |content|
    ensures ReadRange(Some(Stored(|content|, Some(content))), start, end) ==
        Ok(Response(start, end, Some(content[start..end])))
  {
  }

  /**
   * A range is answered exactly if it lies within the announced size of a content whose file is there, and then with
   * the bytes of the file in it, as many of them as the file has.
   */
  lemma ServesExactly(stored: Option<Stored>, start: int, end: int)
    ensures ReadRange(stored, start, end).Ok? <==>
            stored.Some? && stored.value.file.Some? && 0 <= start < end <= stored.value.size
    ensures var r := ReadRange(stored, start, end);
            r.Ok? ==>
              && r.value.start == start && r.value.data.Some?
              && var file, data := stored.value.file.value, r.value.data.value;
              && r.value.end == start + |data|
              && (forall i :: 0 <= i < |data| ==> start + i < |file| && data[i] == file[start + i])
              && (|data| < end - start ==> r.value.end == |file| || (data == [] && start >= |file|))
              && |data| <= end - start
  {
  }

  // ---------------------------------------------------------------- paths

  /** The blanks of ASCII as Python strips them: tab to carriage return, the four separators, and the space. */
  lemma BlanksAreExact(c: char)
    ensures Blank(c) <==> c as int in {9, 10, 11, 12, 13, 28, 29, 30, 31, 32}
  {
  }

  ghost predicate AllBlank(s: string) {
    forall i :: 0 <= i < |s| ==> Blank(s[i])
  }

  lemma {:induction false} StripLeftDrops(a: string, s: string)
    requires AllBlank(a)
    ensures StripLeft(a + s) == StripLeft(s)
  {
    if a == "" {
      assert a + s == s;
    } else {
      assert (a + s)[1..] == a[1..] + s;
      StripLeftDrops(a[1..], s);
    }
  }

  lemma {:induction false} StripRightDrops(s: string, b: string)
    requires AllBlank(b)
    ensures StripRight(s + b) == StripRight(s)
  {
    if b == "" {
      assert s + b == s;
    } else {
      assert (s + b)[..|s + b| - 1] == s + b[..|b| - 1];
      StripRightDrops(s, b[..|b| - 1]);
    }
  }

  lemma NothingToStrip(s: string)
    requires s != "" && !Blank(s[0]) && !Blank(s[|s| - 1])
    ensures StripLeft(s) == s && StripRight(s) == s
  {
  }

  lemma StripIsExact(a: string, s: string, b: string)
    requires AllBlank(a) && AllBlank(b) && s != "" && !Blank(s[0]) && !Blank(s[|s| - 1])
    ensures StripRight(StripLeft(a + s + b)) == s
  {
    assert a + s + b == a + (s + b);
    StripLeftDrops(a, s + b);
    StripRightDrops(s, b);
    NothingToStrip(s);
    assert (s + b)[0] == s[0];
  }

  /**
   * Where a content lies: blanks around its hash and the case of its letters do not matter; a hash of up to 64
   * characters is a file name, of a longer one two characters name the directory and the next 64 at most the file.
   */
  lemma PathOfHash(a: string, s: string, b: string)
    requires AllBlank(a) && AllBlank(b) && s != "" && !Blank(s[0]) && !Blank(s[|s| - 1])
    ensures FinalPath(a + s + b) == FinalPath(s)
    ensures |s| <= 64 ==> FinalPath(s) == [Lower(s)]
    ensures |s| > 64 ==>
              var p := FinalPath(s);
              && |p| == 2 && |p[0]| == 2 && |p[1]| <= 64
              && p[0] + p[1] <= Lower(s) && (|s| <= 66 ==> p[0] + p[1] == Lower(s))
    ensures |s| > 66 ==> |FinalPath(s)[1]| == 64
    ensures |s| == |Lower(s)|
    ensures forall i :: 0 <= i < |s| ==> Lower(s)[i] == s[i] || ('A' <= s[i] <= 'Z' && Lower(s)[i] - s[i] == 'a' - 'A')
  {
    StripIsExact(a, s, b);
    StripIsExact("", s, "");
    assert "" + s + "" == s;
  }

  /** The contents of two digests lie at one place exactly if the digests begin with the same 66 digits. */
  lemma PathsMeetExactlyWhen(s: string, t: string)
    requires |s| == |t| == 128 && IsHexDigest(s) && IsHexDigest(t)
    ensures FinalPath(s) == FinalPath(t) <==> s[..66] == t[..66]
  {
    DigestPath(s);
    DigestPath(t);
    assert s[..66] == s[..2] + s[2..66] && t[..66] == t[..2] + t[2..66];
  }

  // ---------------------------------------------------------------- the object

  class ContentTransferService {
    var downloads: map<Key, Download>
    var files: map<Path, Bytes>
    var range: int
    const hash: Bytes -> string

    constructor (hash: Bytes -> string, range: int)
      ensures State() == World(map[], map[]) && this.range == range && this.hash == hash
    {
      downloads, files, this.range, this.hash := map[], map[], range, hash;
    }

    function State(): World
      reads this
    {
      World(downloads, files)
    }

    method Configure(size: int)
      modifies this`range
      ensures range >= 1 && (size >= 1 ==> range == size)
    {
      range := if size < 1 then 1 else size;
    }

    method StartOrUpdateDownload(key: Key, contentHash: string, size: int, contentType: string) returns (d: Download)
      modifies this`downloads, this`files
      ensures State() == Start(old(State()), key, contentHash, size, contentType)
      ensures key in downloads && d == downloads[key]
    {
      if key in downloads {
        return downloads[key];
      }
      files := files[PartialPath(contentHash) := []];
      d := Download(contentHash, size, contentType, 0, Downloading);
      downloads := downloads[key := d];
    }

    method GetNextRangeRequest(key: Key) returns (r: Result<Option<(int, int)>, DownloadError>)
      ensures r == NextRequest(State(), key, range)
    {
      if key !in downloads {
        return Err(NotStarted);
      }
      var d := downloads[key];
      if d.status != Downloading || d.next >= d.size {
        return Ok(None);
      }
      var end := d.next + range;
      r := Ok(Some((d.next, if end < d.size then end else d.size)));
    }

    method SetStatus(key: Key, s: Status)
      requires key in downloads
      modifies this`downloads
      ensures State() == WithStatus(old(State()), key, s)
    {
      downloads := downloads[key := downloads[key].(status := s)];
    }

    method HandleContentRangeResponse(key: Key, r: Response) returns (result: Result<Download, DownloadError>)
      modifies this`downloads, this`files
      ensures var after := Respond(hash, old(State()), key, r);
              if after.Err? then State() == old(State()) && result == Err(after.error)
              else State() == after.value && key in downloads && result == Ok(downloads[key])
    {
      if key !in downloads {
        return Err(NotStarted);
      }
      var d := downloads[key];
      if d.status != Downloading {
        return Ok(d);
      }
      if r.start != d.next {
        SetStatus(key, Failed(OutOfOrder));
      } else if r.data.None? {
        SetStatus(key, Failed(BadBase64));
      } else if r.end != r.start + |r.data.value| {
        SetStatus(key, Failed(RangeSizeMismatch));
      } else {
        files := Appended(files, PartialPath(d.contentHash), r.data.value);
        downloads := downloads[key := d.(next := r.end)];
        if r.end >= d.size {
          CompleteDownload(key);
        }
      }
      result := Ok(downloads[key]);
    }

    method CompleteDownload(key: Key)
      requires key in downloads && PartialPath(downloads[key].contentHash) in files
      modifies this`downloads, this`files
      ensures State() == Complete(hash, old(State()), key)
    {
      var d := downloads[key];
      var partial := PartialPath(d.contentHash);
      var content := files[partial];
      if |content| != d.size {
        SetStatus(key, Failed(FileSizeMismatch));
      } else if hash(content) != d.contentHash {
        SetStatus(key, Failed(HashMismatch));
      } else {
        files := files - {partial};
        files := files[FinalPath(d.contentHash) := content];
        SetStatus(key, Completed);
      }
    }
  }

  // ---------------------------------------------------------------- every run, whatever is answered

  datatype Event =
    | Begin(key: Key, contentHash: string, size: int, contentType: string)
    | Answer(key: Key, response: Response)

  function Apply(hash: Bytes -> string, w: World, e: Event): World {
    match e
    case Begin(key, contentHash, size, contentType) => Start(w, key, contentHash, size, contentType)
    case Answer(key, r) => var after := Respond(hash, w, key, r); if after.Ok? then after.value else w
  }

  function Run(hash: Bytes -> string, w: World, events: seq<Event>): World {
    if events == [] then w else Apply(hash, Run(hash, w, events[..|events| - 1]), events[|events| - 1])
  }

  /** A download that has ended never changes again. */
  lemma EndedIsAbsorbing(hash: Bytes -> string, w: World, e: Event, key: Key)
    requires key in w.downloads && w.downloads[key].status != Downloading
    ensures key in Apply(hash, w, e).downloads && Apply(hash, w, e).downloads[key] == w.downloads[key]
  {
  }

  lemma {:induction false} EndedStaysEnded(hash: Bytes -> string, w: World, events: seq<Event>, key: Key)
    requires key in w.downloads && w.downloads[key].status != Downloading
    ensures key in Run(hash, w, events).downloads && Run(hash, w, events).downloads[key] == w.downloads[key]
  {
    if events != [] {
      var init := events[..|events| - 1];
      EndedStaysEnded(hash, w, init, key);
      EndedIsAbsorbing(hash, Run(hash, w, init), events[|events| - 1], key);
    }
  }

  // ---------------------------------------------------------------- which answers fail a download

  /** The bytes that a download has so far. */
  function Received(w: World, d: Download): Bytes {
    var partial := PartialPath(d.contentHash);
    if partial in w.files then w.files[partial] else []
  }

  /** A download that is there stays as it is; a new one has what was announced, and nothing received. */
  lemma StartBeginsAnew(w: World, key: Key, contentHash: string, size: int, contentType: string)
    ensures var v := Start(w, key, contentHash, size, contentType);
            if key in w.downloads then v == w
            else
              && v.downloads.Keys == w.downloads.Keys + {key}
              && v.files.Keys == w.files.Keys + {PartialPath(contentHash)}
              && (forall k :: k in w.downloads ==> v.downloads[k] == w.downloads[k])
              && (forall p :: p in w.files && p != PartialPath(contentHash) ==> v.files[p] == w.files[p])
              && var d := v.downloads[key];
                 (d.contentHash, d.size, d.contentType, d.next, d.status) ==
                 (contentHash, size, contentType, 0, Downloading) && Received(v, d) == []
  {
  }

  /**
   * An answer to a download that asks for something: it has to begin where the request does, be base64, and end where
   * its bytes do. If it does, what was received grows by its bytes, and nothing else changes while more is wanted; if
   * not, the download has failed for the first of these reasons and keeps its place and its files.
   */
  lemma AnswersExactly(hash: Bytes -> string, w: World, key: Key, range: int, r: Response)
    requires NextRequest(w, key, range).Ok? && NextRequest(w, key, range).value.Some?
    ensures key in w.downloads && Respond(hash, w, key, r).Ok?
    ensures var asked, v := NextRequest(w, key, range).value.value.0, Respond(hash, w, key, r).value;
            var d := w.downloads[key];
            && v.downloads.Keys == w.downloads.Keys
            && (forall k :: k in w.downloads && k != key ==> v.downloads[k] == w.downloads[k])
            && (if r.start != asked then v.downloads[key] == d.(status := Failed(OutOfOrder)) && v.files == w.files
                else if r.data.None? then v.downloads[key] == d.(status := Failed(BadBase64)) && v.files == w.files
                else if r.end - asked != |r.data.value| then
                  v.downloads[key] == d.(status := Failed(RangeSizeMismatch)) && v.files == w.files
                else
                  && v.downloads[key].next == r.end
                  && (r.end < d.size ==>
                        && v.downloads[key] == d.(next := r.end)
                        && v.files == w.files[PartialPath(d.contentHash) := Received(w, d) + r.data.value]))
  {
  }

  /** An answer that reaches the announced size ends the download, with a reason exactly if something does not fit. */
  lemma LastAnswerDecides(hash: Bytes -> string, w: World, key: Key, r: Response)
    requires key in w.downloads && w.downloads[key].status == Downloading
    requires r.data.Some? && r.start == w.downloads[key].next && r.end - r.start == |r.data.value|
    requires r.end >= w.downloads[key].size
    ensures Respond(hash, w, key, r).Ok?
    ensures var d, v := w.downloads[key], Respond(hash, w, key, r).value;
            var content := Received(w, d) + r.data.value;
            && key in v.downloads
            && (v.downloads[key].status == Failed(FileSizeMismatch) <==> |content| != d.size)
            && (v.downloads[key].status == Failed(HashMismatch) <==>
                |content| == d.size && hash(content) != d.contentHash)
            && (v.downloads[key].status == Completed <==> |content| == d.size && hash(content) == d.contentHash)
            && (v.downloads[key].status == Completed ==>
                  v.files == (w.files - {PartialPath(d.contentHash)})[FinalPath(d.contentHash) := content])
            && (v.downloads[key].status != Completed ==>
                  v.files == w.files[PartialPath(d.contentHash) := content])
  {
  }

  /** An answer that was taken and comes again while more is wanted fails the download, unless it was empty. */
  lemma RepeatedAnswerFails(hash: Bytes -> string, w: World, key: Key, range: int, r: Response)
    requires NextRequest(w, key, range).Ok? && NextRequest(w, key, range).value.Some?
    requires Respond(hash, w, key, r).Ok? && Respond(hash, w, key, r).value.downloads[key].status == Downloading
    requires r.data.Some? && r.data.value != []
    ensures Respond(hash, Respond(hash, w, key, r).value, key, r).Ok?
    ensures Respond(hash, Respond(hash, w, key, r).value, key, r).value.downloads[key].status == Failed(OutOfOrder)
  {
    AnswersExactly(hash, w, key, range, r);
  }

  /** Digests are 128 lower-case digits. */
  ghost predicate WritesDigests(hash: Bytes -> string) {
    forall b :: |hash(b)| == 128 && IsHexDigest(hash(b))
  }

  /** A completed download's file is there, with the size and the hash that were announced. */
  ghost predicate Verified(hash: Bytes -> string, w: World, d: Download) {
    var p := FinalPath(d.contentHash);
    d.status == Completed ==> p in w.files && |w.files[p]| == d.size && hash(w.files[p]) == d.contentHash
  }

  ghost predicate AllVerified(hash: Bytes -> string, w: World) {
    forall k :: k in w.downloads ==> Verified(hash, w, w.downloads[k])
  }

  lemma DigestPath(s: string)
    requires |s| == 128 && IsHexDigest(s)
    ensures FinalPath(s) == [s[..2], s[2..66]]
  {
    assert StripLeft(s) == s;
    assert StripRight(s) == s;
    assert Lower(s) == s;
  }

  /** Nothing is ever appended to or reset at the place of a digest. */
  lemma PartialIsNoDigestPath(s: string, contentHash: string)
    requires |s| == 128 && IsHexDigest(s)
    ensures PartialPath(contentHash) != FinalPath(s)
  {
    DigestPath(s);
    var p, q := FinalPath(contentHash), PartialPath(contentHash);
    var name := p[|p| - 1] + ".part";
    assert q[|q| - 1] == name && name[|name| - 5] == '.';
    assert IsHexDigest(s[2..66]);
  }

  /** The content that an event moves to its final path, if it completes a download. */
  ghost function Moves(hash: Bytes -> string, w: World, e: Event): set<Bytes> {
    var v := Apply(hash, w, e);
    if e.Answer? && e.key in w.downloads && w.downloads[e.key].status == Downloading && CompletedAt(v, e.key)
    then {v.files[FinalPath(v.downloads[e.key].contentHash)]} else {}
  }

  ghost predicate CompletedAt(w: World, key: Key) {
    && key in w.downloads && w.downloads[key].status == Completed
    && FinalPath(w.downloads[key].contentHash) in w.files
  }

  const NOTHING := World(map[], map[])

  ghost function Moved(hash: Bytes -> string, events: seq<Event>): set<Bytes> {
    if events == [] then {}
    else
      var init := events[..|events| - 1];
      Moved(hash, init) + Moves(hash, Run(hash, NOTHING, init), events[|events| - 1])
  }

  /** A moved content with the announced hash and size. */
  ghost predicate HasSource(hash: Bytes -> string, d: Download, moved: set<Bytes>) {
    exists b :: b in moved && hash(b) == d.contentHash && |b| == d.size
  }

  /** A completed download was made from a moved content, and at its final path lies a moved content that belongs. */
  ghost predicate Kept(hash: Bytes -> string, files: map<Path, Bytes>, d: Download, moved: set<Bytes>) {
    d.status == Completed ==>
      var p := FinalPath(d.contentHash);
      HasSource(hash, d, moved) && p in files && files[p] in moved && FinalPath(hash(files[p])) == p
  }

  ghost predicate AllKept(hash: Bytes -> string, w: World, moved: set<Bytes>) {
    forall k :: k in w.downloads ==> Kept(hash, w.files, w.downloads[k], moved)
  }

  /** A write to a partial file does not touch the place of a completed download. */
  lemma PartialWriteKeeps(hash: Bytes -> string, files: map<Path, Bytes>, d: Download, moved: set<Bytes>,
                          contentHash: string, data: Bytes)
    requires WritesDigests(hash) && Kept(hash, files, d, moved)
    ensures Kept(hash, files[PartialPath(contentHash) := data], d, moved)
  {
    if d.status == Completed {
      PartialIsNoDigestPath(d.contentHash, contentHash);
    }
  }

  lemma StartKeeps(hash: Bytes -> string, w: World, key: Key, contentHash: string, size: int, contentType: string,
                   moved: set<Bytes>)
    requires WritesDigests(hash) && AllKept(hash, w, moved)
    ensures AllKept(hash, Start(w, key, contentHash, size, contentType), moved)
  {
    forall k | k in w.downloads ensures Kept(hash, w.files[PartialPath(contentHash) := []], w.downloads[k], moved) {
      PartialWriteKeeps(hash, w.files, w.downloads[k], moved, contentHash, []);
    }
  }

  lemma GrownKeeps(hash: Bytes -> string, w: World, key: Key, end: int, data: Bytes, moved: set<Bytes>)
    requires WritesDigests(hash) && AllKept(hash, w, moved)
    requires key in w.downloads && w.downloads[key].status == Downloading
    ensures AllKept(hash, Grown(w, key, end, data), moved)
  {
    var v, c := Grown(w, key, end, data), w.downloads[key].contentHash;
    forall k | k in v.downloads ensures Kept(hash, v.files, v.downloads[k], moved) {
      if k != key {
        PartialWriteKeeps(hash, w.files, w.downloads[k], moved, c, v.files[PartialPath(c)]);
      }
    }
  }

  lemma StatusKeeps(hash: Bytes -> string, w: World, key: Key, status: Status, moved: set<Bytes>)
    requires AllKept(hash, w, moved) && key in w.downloads && status != Completed
    ensures AllKept(hash, WithStatus(w, key, status), moved)
  {
    forall k | k in w.downloads ensures Kept(hash, w.files, WithStatus(w, key, status).downloads[k], moved) {
      assert Kept(hash, w.files, w.downloads[k], moved);
    }
  }

  /** One more moved content, at its place, and the partial file gone. */
  lemma MoveKeeps(hash: Bytes -> string, files: map<Path, Bytes>, d: Download, moved: set<Bytes>, contentHash: string,
                  content: Bytes)
    requires WritesDigests(hash) && Kept(hash, files, d, moved) && hash(content) == contentHash
    ensures Kept(hash, (files - {PartialPath(contentHash)})[FinalPath(contentHash) := content], d, moved + {content})
  {
    if d.status == Completed {
      PartialIsNoDigestPath(d.contentHash, contentHash);
      var b :| b in moved && hash(b) == d.contentHash && |b| == d.size;
      assert b in moved + {content};
    }
  }

  /** The check at the end succeeds for this content. */
  ghost predicate Succeeds(hash: Bytes -> string, w: World, key: Key) {
    && key in w.downloads && w.downloads[key].status == Downloading
    && PartialPath(w.downloads[key].contentHash) in w.files
    && var d := w.downloads[key];
    && var content := w.files[PartialPath(d.contentHash)];
    |content| == d.size && hash(content) == d.contentHash
  }

  lemma SuccessKeeps(hash: Bytes -> string, w: World, key: Key, moved: set<Bytes>)
    requires WritesDigests(hash) && AllKept(hash, w, moved) && Succeeds(hash, w, key)
    ensures var content := w.files[PartialPath(w.downloads[key].contentHash)];
            AllKept(hash, Complete(hash, w, key), moved + {content})
  {
    var d, v := w.downloads[key], Complete(hash, w, key);
    var content := w.files[PartialPath(d.contentHash)];
    forall k | k in v.downloads ensures Kept(hash, v.files, v.downloads[k], moved + {content}) {
      if k == key {
        assert content in moved + {content} && HasSource(hash, v.downloads[k], moved + {content});
      } else {
        MoveKeeps(hash, w.files, w.downloads[k], moved, d.contentHash, content);
      }
    }
  }

  /** What is moved by an answer that completes the download. */
  lemma SuccessMoves(hash: Bytes -> string, w: World, key: Key, end: int, data: Bytes)
    requires key in w.downloads && w.downloads[key].status == Downloading && end >= w.downloads[key].size
    requires var d := w.downloads[key]; d.next + |data| == end
    requires Succeeds(hash, Grown(w, key, end, data), key)
    ensures var d, v := w.downloads[key], Grown(w, key, end, data);
            Moves(hash, w, Answer(key, Response(d.next, end, Some(data)))) == {v.files[PartialPath(d.contentHash)]}
  {
  }

  lemma AnswerKeeps(hash: Bytes -> string, w: World, key: Key, end: int, data: Bytes, moved: set<Bytes>)
    requires WritesDigests(hash) && AllKept(hash, w, moved)
    requires key in w.downloads && w.downloads[key].status == Downloading
    requires w.downloads[key].next + |data| == end
    ensures var e := Answer(key, Response(w.downloads[key].next, end, Some(data)));
            AllKept(hash, Apply(hash, w, e), moved + Moves(hash, w, e))
  {
    var d, v := w.downloads[key], Grown(w, key, end, data);
    var e := Answer(key, Response(d.next, end, Some(data)));
    GrownKeeps(hash, w, key, end, data, moved);
    if end < d.size {
      MoreIsKept(hash, v, moved, moved + Moves(hash, w, e));
    } else if Succeeds(hash, v, key) {
      SuccessKeeps(hash, v, key, moved);
      SuccessMoves(hash, w, key, end, data);
    } else {
      StatusKeeps(hash, v, key, Failed(FileSizeMismatch), moved);
      StatusKeeps(hash, v, key, Failed(HashMismatch), moved);
      MoreIsKept(hash, Apply(hash, w, e), moved, moved + Moves(hash, w, e));
    }
  }

  lemma MoreIsKept(hash: Bytes -> string, w: World, moved: set<Bytes>, more: set<Bytes>)
    requires AllKept(hash, w, moved) && moved <= more
    ensures AllKept(hash, w, more)
  {
    forall k | k in w.downloads ensures Kept(hash, w.files, w.downloads[k], more) {
      var d := w.downloads[k];
      assert Kept(hash, w.files, d, moved);
      if d.status == Completed {
        var b :| b in moved && hash(b) == d.contentHash && |b| == d.size;
        assert b in more;
      }
    }
  }

  lemma ApplyKeeps(hash: Bytes -> string, w: World, e: Event, moved: set<Bytes>)
    requires WritesDigests(hash) && AllKept(hash, w, moved)
    ensures AllKept(hash, Apply(hash, w, e), moved + Moves(hash, w, e))
  {
    match e
    case Begin(key, contentHash, size, contentType) =>
      StartKeeps(hash, w, key, contentHash, size, contentType, moved);
      assert moved + Moves(hash, w, e) == moved;
    case Answer(key, r) =>
      if key in w.downloads && w.downloads[key].status == Downloading && r.start == w.downloads[key].next
         && r.data.Some? && r.end == r.start + |r.data.value| {
        AnswerKeeps(hash, w, key, r.end, r.data.value, moved);
      } else {
        if key in w.downloads {
          StatusKeeps(hash, w, key, Failed(OutOfOrder), moved);
          StatusKeeps(hash, w, key, Failed(BadBase64), moved);
          StatusKeeps(hash, w, key, Failed(RangeSizeMismatch), moved);
        }
        MoreIsKept(hash, Apply(hash, w, e), moved, moved + Moves(hash, w, e));
      }
  }

  lemma {:induction false} RunKeeps(hash: Bytes -> string, events: seq<Event>)
    requires WritesDigests(hash)
    ensures AllKept(hash, Run(hash, NOTHING, events), Moved(hash, events))
  {
    if events != [] {
      var init := events[..|events| - 1];
      RunKeeps(hash, init);
      ApplyKeeps(hash, Run(hash, NOTHING, init), events[|events| - 1], Moved(hash, init));
    }
  }

  /** If their final paths meet they have the same hash and the same size. */
  ghost predicate Agree(hash: Bytes -> string, b: Bytes, c: Bytes) {
    FinalPath(hash(b)) == FinalPath(hash(c)) ==> hash(b) == hash(c) && |b| == |c|
  }

  ghost predicate Compatible(hash: Bytes -> string, moved: set<Bytes>) {
    forall b, c {:trigger Agree(hash, b, c)} :: b in moved && c in moved ==> Agree(hash, b, c)
  }

  lemma KeptIsVerified(hash: Bytes -> string, w: World, moved: set<Bytes>)
    requires AllKept(hash, w, moved) && Compatible(hash, moved)
    ensures AllVerified(hash, w)
  {
    forall k | k in w.downloads ensures Verified(hash, w, w.downloads[k]) {
      var d := w.downloads[k];
      assert Kept(hash, w.files, d, moved);
      if d.status == Completed {
        var b :| b in moved && hash(b) == d.contentHash && |b| == d.size;
        assert Agree(hash, b, w.files[FinalPath(d.contentHash)]);
      }
    }
  }

  /**
   * In every run, whatever is answered, a completed download has its file with the announced size and hash, unless two
   * contents that the run moved meet at one final path and differ in hash or size.
   */
  lemma CompletedIsVerified(hash: Bytes -> string, events: seq<Event>)
    requires WritesDigests(hash) && Compatible(hash, Moved(hash, events))
    ensures AllVerified(hash, Run(hash, NOTHING, events))
  {
    RunKeeps(hash, events);
    KeptIsVerified(hash, Run(hash, NOTHING, events), Moved(hash, events));
  }

  lemma {:induction false} MovedGrows(hash: Bytes -> string, events: seq<Event>, i: nat)
    requires i <= |events|
    ensures Moved(hash, events[..i]) <= Moved(hash, events)
    decreases |events|
  {
    if i < |events| {
      var init := events[..|events| - 1];
      assert init[..i] == events[..i];
      MovedGrows(hash, init, i);
    } else {
      assert events[..i] == events;
    }
  }

  ghost predicate AlwaysVerified(hash: Bytes -> string, events: seq<Event>) {
    forall i {:trigger events[..i]} :: 0 <= i <= |events| ==> AllVerified(hash, Run(hash, NOTHING, events[..i]))
  }

  /** Each moved content still has the download that moved it. */
  ghost predicate HasOwner(hash: Bytes -> string, w: World, b: Bytes) {
    exists k :: k in w.downloads && w.downloads[k].status == Completed && w.downloads[k].contentHash == hash(b)
                && w.downloads[k].size == |b|
  }

  lemma OwnerStays(hash: Bytes -> string, w: World, e: Event, b: Bytes)
    requires HasOwner(hash, w, b)
    ensures HasOwner(hash, Apply(hash, w, e), b)
  {
    var k :| k in w.downloads && w.downloads[k].status == Completed && w.downloads[k].contentHash == hash(b)
             && w.downloads[k].size == |b|;
    EndedIsAbsorbing(hash, w, e, k);
  }

  /** What an event moves is at its place, and has its owner. */
  lemma MoveHasOwner(hash: Bytes -> string, w: World, e: Event, c: Bytes)
    requires c in Moves(hash, w, e)
    ensures var v := Apply(hash, w, e);
            HasOwner(hash, v, c) && FinalPath(hash(c)) in v.files && v.files[FinalPath(hash(c))] == c
  {
    var v := Apply(hash, w, e);
    assert v.downloads[e.key].contentHash == hash(c) && v.downloads[e.key].size == |c|;
  }

  lemma {:induction false} MovedHasOwner(hash: Bytes -> string, events: seq<Event>, b: Bytes)
    requires b in Moved(hash, events)
    ensures HasOwner(hash, Run(hash, NOTHING, events), b)
  {
    var init, e := events[..|events| - 1], events[|events| - 1];
    if b in Moved(hash, init) {
      MovedHasOwner(hash, init, b);
      OwnerStays(hash, Run(hash, NOTHING, init), e, b);
    } else {
      MoveHasOwner(hash, Run(hash, NOTHING, init), e, b);
    }
  }

  /** A content with an owner whose place holds another, in a verified state: they agree. */
  lemma OwnerDecides(hash: Bytes -> string, w: World, b: Bytes, c: Bytes)
    requires AllVerified(hash, w) && HasOwner(hash, w, b) && FinalPath(hash(b)) == FinalPath(hash(c))
    requires FinalPath(hash(c)) in w.files && w.files[FinalPath(hash(c))] == c
    ensures hash(b) == hash(c) && |b| == |c|
  {
    var k :| k in w.downloads && w.downloads[k].status == Completed && w.downloads[k].contentHash == hash(b)
             && w.downloads[k].size == |b|;
    assert Verified(hash, w, w.downloads[k]);
  }

  lemma {:induction false} VerifiedIsCompatible(hash: Bytes -> string, events: seq<Event>)
    requires AlwaysVerified(hash, events)
    ensures Compatible(hash, Moved(hash, events))
  {
    if events != [] {
      var n, init, e := |events| - 1, events[..|events| - 1], events[|events| - 1];
      assert events[..n + 1] == events;
      forall i | 0 <= i <= n ensures AllVerified(hash, Run(hash, NOTHING, init[..i])) {
        assert init[..i] == events[..i];
      }
      VerifiedIsCompatible(hash, init);
      LastMoveIsCompatible(hash, events);
    }
  }

  lemma CompatibleGrows(hash: Bytes -> string, before: set<Bytes>, latest: set<Bytes>)
    requires Compatible(hash, before)
    requires forall b, c {:trigger Agree(hash, b, c)} :: b in before + latest && c in latest ==> Agree(hash, b, c)
    ensures Compatible(hash, before + latest)
  {
    forall b, c | b in before + latest && c in before + latest ensures Agree(hash, b, c) {
      AgreeIsSymmetric(hash, c, b);
      assert Agree(hash, c, b) ==> Agree(hash, b, c);
    }
  }

  lemma AgreeIsSymmetric(hash: Bytes -> string, b: Bytes, c: Bytes)
    ensures Agree(hash, b, c) == Agree(hash, c, b)
  {
  }

  lemma CompatibleShrinks(hash: Bytes -> string, more: set<Bytes>, fewer: set<Bytes>)
    requires Compatible(hash, more) && fewer <= more
    ensures Compatible(hash, fewer)
  {
  }

  lemma MoveAgrees(hash: Bytes -> string, events: seq<Event>, b: Bytes, c: Bytes)
    requires events != [] && AllVerified(hash, Run(hash, NOTHING, events)) && b in Moved(hash, events)
    requires c in Moves(hash, Run(hash, NOTHING, events[..|events| - 1]), events[|events| - 1])
    ensures Agree(hash, b, c)
  {
    if FinalPath(hash(b)) == FinalPath(hash(c)) {
      MovedHasOwner(hash, events, b);
      MoveHasOwner(hash, Run(hash, NOTHING, events[..|events| - 1]), events[|events| - 1], c);
      OwnerDecides(hash, Run(hash, NOTHING, events), b, c);
    }
  }

  /** The last move agrees with all moves before it. */
  lemma LastMoveIsCompatible(hash: Bytes -> string, events: seq<Event>)
    requires events != [] && AllVerified(hash, Run(hash, NOTHING, events))
    requires Compatible(hash, Moved(hash, events[..|events| - 1]))
    ensures Compatible(hash, Moved(hash, events))
  {
    var before := Moved(hash, events[..|events| - 1]);
    var latest := Moves(hash, Run(hash, NOTHING, events[..|events| - 1]), events[|events| - 1]);
    forall b, c | b in before + latest && c in latest ensures Agree(hash, b, c) {
      MoveAgrees(hash, events, b, c);
    }
    CompatibleGrows(hash, before, latest);
  }

  /**
   * At every point of a run every completed download has its file with the announced size and hash, if and only if any
   * two contents that the run moved and whose final paths meet have the same hash and the same size.
   */
  lemma VerifiedExactlyWhen(hash: Bytes -> string, events: seq<Event>)
    requires WritesDigests(hash)
    ensures AlwaysVerified(hash, events) <==> Compatible(hash, Moved(hash, events))
  {
    if AlwaysVerified(hash, events) {
      VerifiedIsCompatible(hash, events);
    }
    if Compatible(hash, Moved(hash, events)) {
      forall i | 0 <= i <= |events| ensures AllVerified(hash, Run(hash, NOTHING, events[..i])) {
        MovedGrows(hash, events, i);
        CompatibleShrinks(hash, Moved(hash, events), Moved(hash, events[..i]));
        CompletedIsVerified(hash, events[..i]);
      }
    }
  }

  /** A download that is answered with all of its content at once. */
  function Whole(hash: Bytes -> string, key: Key, content: Bytes): seq<Event> {
    [Begin(key, hash(content), |content|, ""), Answer(key, Response(0, |content|, Some(content)))]
  }

  lemma WholeMoves(hash: Bytes -> string, events: seq<Event>, key: Key, content: Bytes)
    requires key !in Run(hash, NOTHING, events).downloads
    ensures content in Moved(hash, events + Whole(hash, key, content))
    ensures Moved(hash, events) <= Moved(hash, events + Whole(hash, key, content))
  {
    var one, all := events + [Whole(hash, key, content)[0]], events + Whole(hash, key, content);
    assert all[..|all| - 1] == one && one[..|one| - 1] == events;
    var w := Run(hash, NOTHING, events);
    var v := Start(w, key, hash(content), |content|, "");
    assert Run(hash, NOTHING, one) == v;
    assert [] + content == content;
    SuccessMoves(hash, v, key, |content|, content);
  }

  lemma WholeKeepsKeys(hash: Bytes -> string, key: Key, content: Bytes, other: Key)
    requires other != key
    ensures other !in Run(hash, NOTHING, Whole(hash, key, content)).downloads
  {
    var events := Whole(hash, key, content);
    assert events[..1][..0] == [] && Run(hash, NOTHING, []) == NOTHING;
    assert Run(hash, NOTHING, events[..1]) == Start(NOTHING, key, hash(content), |content|, "");
  }

  /** Where it fails: two contents that meet at one final path and do not agree, downloaded one after the other. */
  lemma CollisionShows(hash: Bytes -> string, b: Bytes, c: Bytes, key: Key, other: Key)
    requires WritesDigests(hash) && key != other && !Agree(hash, b, c)
    ensures !AlwaysVerified(hash, Whole(hash, key, b) + Whole(hash, other, c))
  {
    var first := Whole(hash, key, b);
    assert [] + first == first;
    WholeMoves(hash, [], key, b);
    WholeKeepsKeys(hash, key, b, other);
    WholeMoves(hash, first, other, c);
    VerifiedExactlyWhen(hash, first + Whole(hash, other, c));
  }

  // ---------------------------------------------------------------- an honest server

  /** What one download reads and writes. */
  function Places(contentHash: string): set<Path> {
    {PartialPath(contentHash), FinalPath(contentHash)}
  }

  /** An event that the service ignores, or one of another download that shares no file with this one. */
  ghost predicate Apart(w: World, e: Event, key: Key, contentHash: string) {
    match e
    case Begin(other, c, _, _) => other in w.downloads || Places(c) !! Places(contentHash)
    case Answer(other, _) =>
      other in w.downloads && w.downloads[other].status == Downloading ==>
        other != key && Places(w.downloads[other].contentHash) !! Places(contentHash)
  }

  /** The client asks for the next range and the holder of the content answers. */
  function Round(hash: Bytes -> string, w: World, key: Key, range: int, content: Bytes): World {
    var request := NextRequest(w, key, range);
    if request.Err? || request.value.None? then w
    else
      var answer := ReadRange(Some(Stored(|content|, Some(content))), request.value.value.0, request.value.value.1);
      if answer.Err? then w else Apply(hash, w, Answer(key, answer.value))
  }

  /** How far one round gets. */
  function Further(m: nat, range: nat, size: nat): nat {
    if m + range < size then m + range else size
  }

  /** How far `rounds` rounds get. */
  function Reached(rounds: nat, range: nat, size: nat): (n: nat)
    ensures n <= size
  {
    if rounds == 0 then 0
    else Further(Reached(rounds - 1, range, size), range, size)
  }

  /** After `rounds` rounds: a prefix, or the whole content in its final place. */
  ghost predicate OnCourse(hash: Bytes -> string, w: World, key: Key, range: nat, content: Bytes, rounds: nat) {
    && key in w.downloads
    && var d := w.downloads[key];
    && var n := Reached(rounds, range, |content|);
    && d.contentHash == hash(content) && d.size == |content| && d.next == n
    && if n == |content| && rounds > 0 && content != []
       then d.status == Completed && FinalPath(d.contentHash) in w.files && w.files[FinalPath(d.contentHash)] == content
       else && d.status == Downloading && PartialPath(d.contentHash) in w.files
            && w.files[PartialPath(d.contentHash)] == content[..n]
  }

  lemma RoundAdvances(hash: Bytes -> string, w: World, key: Key, range: nat, content: Bytes, rounds: nat)
    requires range >= 1 && OnCourse(hash, w, key, range, content, rounds)
    ensures OnCourse(hash, Round(hash, w, key, range, content), key, range, content, rounds + 1)
  {
    var d, n := w.downloads[key], Reached(rounds, range, |content|);
    if n < |content| {
      var end := if n + range < |content| then n + range else |content|;
      HonestRange(content, n, end);
      assert content[..n] + content[n..end] == content[..end];
      assert content[..|content|] == content;
    }
  }

  lemma OthersDoNotMatter(hash: Bytes -> string, w: World, e: Event, key: Key, range: nat, content: Bytes, rounds: nat)
    requires OnCourse(hash, w, key, range, content, rounds) && Apart(w, e, key, hash(content))
    ensures OnCourse(hash, Apply(hash, w, e), key, range, content, rounds)
  {
  }

  datatype Turn = Ours | Other(event: Event)

  function Turns(hash: Bytes -> string, w: World, key: Key, range: int, content: Bytes, turns: seq<Turn>): World {
    if turns == [] then w
    else
      var before := Turns(hash, w, key, range, content, turns[..|turns| - 1]);
      match turns[|turns| - 1]
      case Ours => Round(hash, before, key, range, content)
      case Other(e) => Apply(hash, before, e)
  }

  function Rounds(turns: seq<Turn>): nat {
    if turns == [] then 0 else Rounds(turns[..|turns| - 1]) + if turns[|turns| - 1].Ours? then 1 else 0
  }

  ghost predicate AllApart(hash: Bytes -> string, w: World, key: Key, range: int, content: Bytes, turns: seq<Turn>) {
    forall i :: 0 <= i < |turns| && turns[i].Other? ==>
      Apart(Turns(hash, w, key, range, content, turns[..i]), turns[i].event, key, hash(content))
  }

  lemma {:induction false} StaysOnCourse(hash: Bytes -> string, w: World, key: Key, range: nat, content: Bytes,
                                         turns: seq<Turn>)
    requires range >= 1 && OnCourse(hash, w, key, range, content, 0) && AllApart(hash, w, key, range, content, turns)
    ensures OnCourse(hash, Turns(hash, w, key, range, content, turns), key, range, content, Rounds(turns))
  {
    if turns != [] {
      var n, init := |turns| - 1, turns[..|turns| - 1];
      forall i | 0 <= i < n && init[i].Other?
        ensures Apart(Turns(hash, w, key, range, content, init[..i]), init[i].event, key, hash(content))
      {
        assert init[..i] == turns[..i];
      }
      StaysOnCourse(hash, w, key, range, content, init);
      var before := Turns(hash, w, key, range, content, init);
      match turns[n]
      case Ours => RoundAdvances(hash, before, key, range, content, Rounds(init));
      case Other(e) => OthersDoNotMatter(hash, before, e, key, range, content, Rounds(init));
    }
  }

  lemma {:induction false} ReachedIsProduct(rounds: nat, range: nat, size: nat)
    ensures Reached(rounds, range, size) == if rounds * range < size then rounds * range else size
  {
    if rounds > 0 {
      ReachedIsProduct(rounds - 1, range, size);
      assert rounds * range == (rounds - 1) * range + range;
    }
  }

  function Ceiling(size: nat, range: nat): nat
    requires range >= 1
  {
    (size + range - 1) / range
  }

  lemma CeilingIsLeast(rounds: nat, size: nat, range: nat)
    requires range >= 1
    ensures rounds * range >= size <==> rounds >= Ceiling(size, range)
  {
    var c := Ceiling(size, range);
    var rest := (size + range - 1) % range;
    assert size + range - 1 == c * range + rest;
    if rounds >= c {
      assert rounds * range >= c * range by { MultiplyIsMonotone(c, rounds, range); }
    } else {
      assert (rounds + 1) * range <= c * range by { MultiplyIsMonotone(rounds + 1, c, range); }
      assert (rounds + 1) * range == rounds * range + range;
    }
  }

  lemma MultiplyIsMonotone(a: nat, b: nat, c: nat)
    requires a <= b
    ensures a * c <= b * c
  {
  }

  lemma ReachedAtTheEnd(rounds: nat, range: nat, size: nat)
    requires range >= 1 && size > 0
    ensures Reached(rounds, range, size) == size && rounds > 0 <==> rounds >= Ceiling(size, range)
    ensures rounds < Ceiling(size, range) ==> Reached(rounds, range, size) == rounds * range <= size
  {
    ReachedIsProduct(rounds, range, size);
    CeilingIsLeast(rounds, size, range);
    CeilingIsLeast(0, size, range);
  }

  lemma StartIsOnCourse(hash: Bytes -> string, w: World, key: Key, contentType: string, range: nat, content: Bytes)
    requires key !in w.downloads
    ensures OnCourse(hash, Start(w, key, hash(content), |content|, contentType), key, range, content, 0)
  {
  }

  /**
   * From `Ceiling` rounds on the whole content is in place; before that, the partial file is what the rounds brought.
   */
  ghost predicate CompleteFrom(hash: Bytes -> string, w: World, key: Key, range: nat, content: Bytes, rounds: nat)
    requires range >= 1
  {
    && key in w.downloads
    && if rounds >= Ceiling(|content|, range)
       then && w.downloads[key].status == Completed
            && FinalPath(hash(content)) in w.files && w.files[FinalPath(hash(content))] == content
       else && w.downloads[key].status == Downloading
            && w.downloads[key].next == rounds * range <= |content|
            && PartialPath(hash(content)) in w.files && w.files[PartialPath(hash(content))] == content[..rounds * range]
  }

  /**
   * With an honest holder of non-empty content, and whatever happens to downloads on other files, the download is
   * complete, with exactly that content, from round number size / range (rounded up) on, and not before.
   */
  lemma HonestDownloadCompletes(hash: Bytes -> string, w: World, key: Key, contentType: string, range: nat,
                                content: Bytes, turns: seq<Turn>)
    requires range >= 1 && key !in w.downloads && content != []
    requires AllApart(hash, Start(w, key, hash(content), |content|, contentType), key, range, content, turns)
    ensures CompleteFrom(hash, Turns(hash, Start(w, key, hash(content), |content|, contentType), key, range, content,
        turns),
                         key, range, content, Rounds(turns))
  {
    var rounds := Rounds(turns);
    var start := Start(w, key, hash(content), |content|, contentType);
    StartIsOnCourse(hash, w, key, contentType, range, content);
    StaysOnCourse(hash, start, key, range, content, turns);
    OnCourseIsComplete(hash, Turns(hash, start, key, range, content, turns), key, range, content, rounds);
  }

  lemma OnCourseIsComplete(hash: Bytes -> string, w: World, key: Key, range: nat, content: Bytes, rounds: nat)
    requires range >= 1 && content != [] && OnCourse(hash, w, key, range, content, rounds)
    ensures CompleteFrom(hash, w, key, range, content, rounds)
  {
    ReachedAtTheEnd(rounds, range, |content|);
  }

  // ---------------------------------------------------------------- a second session on the same content

  /** A step made a number of times. */
  function Repeat(step: World -> World, w: World, count: nat): World {
    if count == 0 then w else step(Repeat(step, w, count - 1))
  }

  function RoundOf(hash: Bytes -> string, key: Key, range: int, content: Bytes): World -> World {
    (w: World) => Round(hash, w, key, range, content)
  }

  /**
   * The file was emptied when the download had n bytes, and it has come to m since: the file holds what came since, and
   * at the end the download is complete only if nothing had come before.
   */
  ghost predicate Emptied(hash: Bytes -> string, w: World, key: Key, content: Bytes, n: nat, m: nat) {
    && key in w.downloads && n <= m <= |content|
    && var d := w.downloads[key];
    && d.contentHash == hash(content) && d.size == |content| && d.next == m
    && if m < |content| then
         && d.status == Downloading && PartialPath(d.contentHash) in w.files
         && w.files[PartialPath(d.contentHash)] == content[n..m]
       else if n == 0 then
         d.status == Completed && FinalPath(d.contentHash) in w.files && w.files[FinalPath(d.contentHash)] == content
       else d.status == Failed(FileSizeMismatch)
  }

  lemma RoundTakes(hash: Bytes -> string, w: World, key: Key, range: nat, content: Bytes, m: nat)
    requires range >= 1 && key in w.downloads && w.downloads[key].status == Downloading
    requires w.downloads[key].size == |content| && w.downloads[key].next == m < |content|
    ensures var end := Further(m, range, |content|);
            m < end && Round(hash, w, key, range, content) == Take(hash, w, key, end, content[m..end])
  {
    HonestRange(content, m, Further(m, range, |content|));
  }

  lemma TakenIsEmptied(hash: Bytes -> string, w: World, key: Key, content: Bytes, n: nat, m: nat, end: nat)
    requires Emptied(hash, w, key, content, n, m) && m < end <= |content|
    ensures Emptied(hash, Take(hash, w, key, end, content[m..end]), key, content, n, end)
  {
    assert content[n..m] + content[m..end] == content[n..end];
    assert n == 0 && end == |content| ==> content[n..end] == content;
  }

  lemma EmptiedAdvances(hash: Bytes -> string, w: World, key: Key, range: nat, content: Bytes, n: nat, m: nat)
    requires range >= 1 && Emptied(hash, w, key, content, n, m)
    ensures Emptied(hash, Round(hash, w, key, range, content), key, content, n, Further(m, range, |content|))
  {
    if m < |content| {
      RoundTakes(hash, w, key, range, content, m);
      TakenIsEmptied(hash, w, key, content, n, m, Further(m, range, |content|));
    }
  }

  /** A step that gets as far as a round does. */
  ghost predicate Furthers(step: World -> World, hash: Bytes -> string, w: World, key: Key, range: nat, content: Bytes,
                           n: nat, m: nat)
  {
    Emptied(hash, w, key, content, n, m) ==> Emptied(hash, step(w), key, content, n, Further(m, range, |content|))
  }

  lemma {:induction false} EmptiedGoesOn(step: World -> World, hash: Bytes -> string, w: World, key: Key, range: nat,
                                         content: Bytes, n: nat, rounds: nat, more: nat)
    requires forall v, m {:trigger Furthers(step, hash, v, key, range, content, n, m)} ::
               Furthers(step, hash, v, key, range, content, n, m)
    requires Emptied(hash, w, key, content, n, Reached(rounds, range, |content|))
    ensures Emptied(hash, Repeat(step, w, more), key, content, n, Reached(rounds + more, range, |content|))
  {
    if more > 0 {
      EmptiedGoesOn(step, hash, w, key, range, content, n, rounds, more - 1);
      assert Furthers(step, hash, Repeat(step, w, more - 1), key, range, content, n,
                      Reached(rounds + more - 1, range, |content|));
    }
  }

  /**
   * Apartness is needed: a second session that starts on the same content empties the file. The first one, once its
   * remaining rounds are made, however many they are, has failed if and only if it had received something before, and
   * has completed if and only if it had received nothing.
   */
  lemma SharedFileFailsExactlyWhen(hash: Bytes -> string, w: World, key: Key, other: Key, contentType: string,
                                   range: nat, content: Bytes, rounds: nat, left: nat)
    requires range >= 1 && OnCourse(hash, w, key, range, content, rounds) && other != key && other !in w.downloads
    requires Reached(rounds, range, |content|) < |content| == Reached(rounds + left, range, |content|)
    ensures var v := Start(w, other, hash(content), |content|, contentType);
            var after := Repeat(RoundOf(hash, key, range, content), v, left);
            && key in after.downloads
            && (after.downloads[key].status == Failed(FileSizeMismatch) <==> Reached(rounds, range, |content|) > 0)
            && (after.downloads[key].status == Completed <==> Reached(rounds, range, |content|) == 0)
  {
    var n := Reached(rounds, range, |content|);
    var v := Start(w, other, hash(content), |content|, contentType);
    assert content[n..n] == [];
    var step := RoundOf(hash, key, range, content);
    forall u, m ensures Furthers(step, hash, u, key, range, content, n, m) {
      if Emptied(hash, u, key, content, n, m) {
        EmptiedAdvances(hash, u, key, range, content, n, m);
      }
    }
    EmptiedGoesOn(step, hash, v, key, range, content, n, rounds, left);
  }

  /** An announced size of zero is never asked for, so rounds do not complete it. */
  lemma NothingToAskFor(hash: Bytes -> string, w: World, key: Key, range: int, content: Bytes)
    requires key in w.downloads && w.downloads[key].size <= 0 && w.downloads[key].next >= 0
    ensures Round(hash, w, key, range, content) == w
  {
  }
}
