/** Where things lie in the bucket: escaped part paths, object keys and prefix listings (layout.py, s3_engine.py). */
module KeySpace {
  import opened Bytes

  const SLASH: Byte := 47
  const PERCENT: Byte := 37

  predicate SlashFree(s: ByteString) {
    SLASH !in s
  }

  // ---------- escaping

  /** Letters, digits, '_' and '~'; '.' and '-' are escaped on top of what percent-encoding asks for. */
  predicate Plain(b: Byte) {
    48 <= b <= 57 || 65 <= b <= 90 || 97 <= b <= 122 || b == 95 || b == 126
  }

  function HexDigit(n: int): (d: Byte)
    requires 0 <= n < 16
    ensures d != SLASH
  {
    if n < 10 then 48 + n else 55 + n
  }

  function HexValue(d: Byte): (n: int)
    ensures 0 <= n < 16
  {
    if 48 <= d <= 57 then d - 48 else if 65 <= d <= 70 then d - 55 else 0
  }

  /** `_quote` of a name given in UTF-8. */
  function Quote(name: ByteString): (q: ByteString)
    ensures SlashFree(q) && (q == [] <==> name == [])
  {
    if name == [] then []
    else (if Plain(name[0]) then [name[0]]
        else [PERCENT, HexDigit(name[0] / 16), HexDigit(name[0] % 16)]) + Quote(name[1..])
  }

  function Unquote(q: ByteString): ByteString {
    if q == [] then []
    else if q[0] == PERCENT && |q| >= 3 then [HexValue(q[1]) * 16 + HexValue(q[2])] + Unquote(q[3..])
    else [q[0]] + Unquote(q[1..])
  }

  lemma {:induction false} QuoteRoundTrip(name: ByteString)
    ensures Unquote(Quote(name)) == name
  {
    if name != [] {
      var q, rest := Quote(name), Quote(name[1..]);
      QuoteRoundTrip(name[1..]);
      if Plain(name[0]) {
        assert q == [name[0]] + rest && q[1..] == rest;
      } else {
        assert q == [PERCENT, HexDigit(name[0] / 16), HexDigit(name[0] % 16)] + rest && q[3..] == rest;
      }
    }
  }

  lemma {:induction false} QuoteAppend(a: ByteString, b: ByteString)
    ensures Quote(a + b) == Quote(a) + Quote(b)
  {
    if a == [] {
      assert a + b == b;
    } else {
      assert (a + b)[0] == a[0] && (a + b)[1..] == a[1..] + b;
      QuoteAppend(a[1..], b);
    }
  }

  /**
   * Byte by byte: letters, digits, '_' and '~' stay; of any other byte its two hexadecimal digits are written behind a
   * '%', with capital letters.
   */
  lemma QuoteByte(b: Byte)
    ensures Quote([b]) == if 48 <= b <= 57 || 65 <= b <= 90 || 97 <= b <= 122 || b == 95 || b == 126 then [b]
                          else [37, Hexadecimal()[b / 16] as int, Hexadecimal()[b % 16] as int]
  {
    assert [b][1..] == [];
  }

  function Hexadecimal(): (digits: string)
    ensures |digits| == 16 && forall d <- digits :: 48 <= d as int <= 70
  {
    "0123456789ABCDEF"
  }

  /** Neither '.' nor '-' nor anything else that is special in a path or an address is left. */
  lemma {:induction false} QuotedBytes(name: ByteString)
    ensures forall b <- Quote(name) ::
              48 <= b <= 57 || 65 <= b <= 90 || 97 <= b <= 122 || b == 95 || b == 126 || b == 37
  {
    if name != [] {
      assert name == [name[0]] + name[1..];
      QuoteAppend([name[0]], name[1..]);
      QuoteByte(name[0]);
      QuotedBytes(name[1..]);
    }
  }

  // ---------- paths

  /** os.path.join. */
  function Join(a: ByteString, b: ByteString): ByteString {
    if b != [] && b[0] == SLASH then b
    else if a == [] || a[|a| - 1] == SLASH then a + b
    else a + [SLASH] + b
  }

  function LStrip(s: ByteString): ByteString {
    if s != [] && s[0] == SLASH then LStrip(s[1..]) else s
  }

  function RStrip(s: ByteString): ByteString {
    if s != [] && s[|s| - 1] == SLASH then RStrip(s[..|s| - 1]) else s
  }

  /** Segments with slashes between them. */
  function Slashed(segments: seq<ByteString>): ByteString
    requires segments != []
  {
    var last := |segments| - 1;
    if last == 0 then segments[0] else Slashed(segments[..last]) + [SLASH] + segments[last]
  }

  lemma NoSlashAfter(a: ByteString, x: ByteString)
    requires SlashFree(x)
    ensures forall k | |a| < k < |a + [SLASH] + x| :: (a + [SLASH] + x)[k] != SLASH
  {
    forall k | |a| < k < |a + [SLASH] + x|
      ensures (a + [SLASH] + x)[k] != SLASH
    {
      assert (a + [SLASH] + x)[k] == x[k - |a| - 1] && x[k - |a| - 1] in x;
    }
  }

  lemma NoSlashBefore(x: ByteString, a: ByteString)
    requires SlashFree(x)
    ensures forall k | 0 <= k < |x| :: (x + [SLASH] + a)[k] != SLASH
    ensures (x + [SLASH] + a)[|x|] == SLASH
  {
    forall k | 0 <= k < |x|
      ensures (x + [SLASH] + a)[k] != SLASH
    {
      assert (x + [SLASH] + a)[k] == x[k] && x[k] in x;
    }
  }

  lemma LastSlash(a: ByteString, b: ByteString, x: ByteString, y: ByteString)
    requires SlashFree(x) && SlashFree(y) && a + [SLASH] + x == b + [SLASH] + y
    ensures a == b && x == y
  {
    var s := a + [SLASH] + x;
    assert s[|a|] == SLASH && s[|b|] == SLASH;
    NoSlashAfter(a, x);
    NoSlashAfter(b, y);
    assert a == s[..|a|] && b == s[..|a|] && x == s[|a| + 1..] && y == s[|a| + 1..];
  }

  lemma {:induction false} SlashedInjective(a: seq<ByteString>, b: seq<ByteString>)
    requires |a| == |b| > 0 && (forall s <- a :: SlashFree(s)) && (forall s <- b :: SlashFree(s))
    requires Slashed(a) == Slashed(b)
    ensures a == b
  {
    var last := |a| - 1;
    if last == 0 {
      assert a == [a[0]] && b == [b[0]];
    } else {
      LastSlash(Slashed(a[..last]), Slashed(b[..last]), a[last], b[last]);
      SlashedInjective(a[..last], b[..last]);
      assert a == a[..last] + [a[last]] && b == b[..last] + [b[last]];
    }
  }

  // ---------- the keys of a backup

  /** The name of a backup, a part or a file: one path segment. */
  predicate Segment(s: ByteString) {
    s != [] && SlashFree(s)
  }

  function BackupPath(root: ByteString, backup: ByteString): ByteString {
    Join(root, backup)
  }

  const DATA: ByteString := [100, 97, 116, 97]
  const TAR: ByteString := [46, 116, 97, 114]

  function PartPath(backupPath: ByteString, db: ByteString, table: ByteString, part: ByteString): ByteString {
    Join(Join(Join(Join(backupPath, DATA), Quote(db)), Quote(table)), part)
  }

  /** The key under which the tarball of a part is stored. */
  function PartKey(root: ByteString, backup: ByteString, db: ByteString, table: ByteString,
                   part: ByteString): ByteString {
    LStrip(Join(PartPath(BackupPath(root, backup), db, table, part), part + TAR))
  }

  /** What all keys under a root have in common. */
  function RootPrefix(root: ByteString): ByteString {
    LStrip(if root == [] || root[|root| - 1] == SLASH then root else root + [SLASH])
  }

  lemma {:induction false} LStripAppend(a: ByteString, b: ByteString)
    requires b != [] && b[0] != SLASH
    ensures LStrip(a + b) == LStrip(a) + b
  {
    if a == [] {
      assert a + b == b;
    } else if a[0] == SLASH {
      assert (a + b)[1..] == a[1..] + b;
      LStripAppend(a[1..], b);
    }
  }

  lemma {:induction false} SlashedEnds(segments: seq<ByteString>)
    requires segments != [] && forall s <- segments :: Segment(s)
    ensures Slashed(segments) != [] && Slashed(segments)[0] != SLASH &&
            Slashed(segments)[|Slashed(segments)| - 1] != SLASH
  {
    var last := |segments| - 1;
    assert segments[last] in segments && segments[0] in segments;
    if last > 0 {
      SlashedEnds(segments[..last]);
    }
  }

  lemma JoinSegment(prefix: ByteString, segments: seq<ByteString>, s: ByteString, more: seq<ByteString>)
    requires segments != [] && (forall t <- segments :: Segment(t)) && Segment(s) && more == segments + [s]
    ensures Join(prefix + Slashed(segments), s) == prefix + Slashed(more)
  {
    SlashedEnds(segments);
    assert more[..|segments|] == segments;
    assert s[0] in s;
    var path := prefix + Slashed(segments);
    assert path[|path| - 1] == Slashed(segments)[|Slashed(segments)| - 1];
    assert path + [SLASH] + s == prefix + (Slashed(segments) + [SLASH] + s);
  }

  predicate Names(backup: ByteString, db: ByteString, table: ByteString, part: ByteString) {
    Segment(backup) && db != [] && table != [] && Segment(part)
  }

  function PartSegments(backup: ByteString, db: ByteString, table: ByteString, part: ByteString): (r: seq<ByteString>)
    requires Names(backup, db, table, part)
    ensures forall s <- r :: Segment(s)
  {
    [backup, DATA, Quote(db), Quote(table), part, part + TAR]
  }

  lemma PartKeyForm(root: ByteString, backup: ByteString, db: ByteString, table: ByteString, part: ByteString)
    requires Names(backup, db, table, part)
    ensures PartKey(root, backup, db, table, part) == RootPrefix(root) + Slashed(PartSegments(backup, db, table, part))
  {
    var base := if root == [] || root[|root| - 1] == SLASH then root else root + [SLASH];
    assert backup[0] in backup;
    assert Slashed([backup]) == backup;
    assert BackupPath(root, backup) == base + Slashed([backup]);
    JoinSegment(base, [backup], DATA, [backup, DATA]);
    JoinSegment(base, [backup, DATA], Quote(db), [backup, DATA, Quote(db)]);
    JoinSegment(base, [backup, DATA, Quote(db)], Quote(table), [backup, DATA, Quote(db), Quote(table)]);
    JoinSegment(base, [backup, DATA, Quote(db), Quote(table)], part, [backup, DATA, Quote(db), Quote(table), part]);
    JoinSegment(base, [backup, DATA, Quote(db), Quote(table), part], part + TAR, PartSegments(backup, db, table, part));
    SlashedEnds(PartSegments(backup, db, table, part));
    LStripAppend(base, Slashed(PartSegments(backup, db, table, part)));
  }

  lemma SlashedSix(a: ByteString, b: ByteString, c: ByteString, d: ByteString, e: ByteString, f: ByteString)
    ensures Slashed([a, b, c, d, e, f])
            == a + [SLASH] + b + [SLASH] + c + [SLASH] + d + [SLASH] + e + [SLASH] + f
  {
    SlashedOnto([a], b, [a, b]);
    SlashedOnto([a, b], c, [a, b, c]);
    SlashedOnto([a, b, c], d, [a, b, c, d]);
    SlashedOnto([a, b, c, d], e, [a, b, c, d, e]);
    SlashedOnto([a, b, c, d, e], f, [a, b, c, d, e, f]);
  }

  lemma SlashedOnto(segments: seq<ByteString>, s: ByteString, more: seq<ByteString>)
    requires segments != [] && more == segments + [s]
    ensures Slashed(more) == Slashed(segments) + [SLASH] + s
  {
    assert more[..|segments|] == segments;
  }

  /** The key spelled out: root/backup/data/database/table/part/part.tar, with both names escaped. */
  lemma PartKeyText(root: ByteString, backup: ByteString, db: ByteString, table: ByteString, part: ByteString)
    requires Names(backup, db, table, part)
    requires root != [] && root[0] != SLASH && root[|root| - 1] != SLASH
    ensures PartKey(root, backup, db, table, part)
            == (root + [47]) + (backup + [47] + [100, 97, 116, 97] + [47] + Quote(db) + [47] + Quote(table) + [47]
               + part + [47] + (part + [46, 116, 97, 114]))
  {
    PartKeyForm(root, backup, db, table, part);
    SlashedSix(backup, DATA, Quote(db), Quote(table), part, part + TAR);
    assert LStrip(root + [SLASH]) == root + [SLASH];
  }

  /** No two parts share a key, whatever characters the names of databases and tables hold. */
  lemma PartKeysInjective(root: ByteString, backup: ByteString, db: ByteString, table: ByteString, part: ByteString,
                          backup': ByteString, db': ByteString, table': ByteString, part': ByteString)
    requires Names(backup, db, table, part) && Names(backup', db', table', part')
    requires PartKey(root, backup, db, table, part) == PartKey(root, backup', db', table', part')
    ensures backup == backup' && db == db' && table == table' && part == part'
  {
    PartKeyForm(root, backup, db, table, part);
    PartKeyForm(root, backup', db', table', part');
    var a, b := PartSegments(backup, db, table, part), PartSegments(backup', db', table', part');
    assert Slashed(a) == (RootPrefix(root) + Slashed(a))[|RootPrefix(root)|..];
    assert Slashed(b) == (RootPrefix(root) + Slashed(b))[|RootPrefix(root)|..];
    SlashedInjective(a, b);
    assert a[0] == b[0] && a[2] == b[2] && a[3] == b[3] && a[4] == b[4];
    QuoteRoundTrip(db);
    QuoteRoundTrip(db');
    QuoteRoundTrip(table);
    QuoteRoundTrip(table');
  }

  /** An empty database or table name would break that: os.path.join lets the empty segment vanish. */
  lemma EmptyNamesCollide(root: ByteString, name: ByteString, part: ByteString)
    requires Segment(name) && Segment(part)
    ensures PartPath(BackupPath(root, name), [], name, part) == PartPath(BackupPath(root, name), name, [], part)
  {
    EmptySegment(Join(BackupPath(root, name), DATA), Quote(name), part);
  }

  lemma EmptySegment(path: ByteString, s: ByteString, t: ByteString)
    requires Segment(s) && Segment(t) && path != [] && path[|path| - 1] != SLASH
    ensures Join(Join(Join(path, []), s), t) == Join(Join(Join(path, s), []), t)
  {
    assert s[0] in s && s[|s| - 1] in s;
    var below := path + [SLASH] + s;
    assert Join(path, []) == path + [SLASH] && Join(path + [SLASH], s) == below;
    assert Join(path, s) == below && Join(below, []) == below + [SLASH];
    JoinBehindSlash(below, t);
  }

  /** A segment joins in the same way whether or not a slash is there already. */
  lemma JoinBehindSlash(path: ByteString, t: ByteString)
    requires Segment(t) && path != [] && path[|path| - 1] != SLASH
    ensures Join(path, t) == Join(path + [SLASH], t)
  {
    assert t[0] in t;
  }

  // ---------- listing by prefix

  /** The prefix that list_dir asks the bucket for. */
  function ListPrefix(path: ByteString): ByteString {
    RStrip(LStrip(path)) + [SLASH]
  }

  /** The key of a file somewhere under a backup's path. */
  function FileKey(root: ByteString, backup: ByteString, file: ByteString): ByteString {
    LStrip(Join(BackupPath(root, backup), file))
  }

  lemma FileKeyForm(root: ByteString, backup: ByteString, file: ByteString)
    requires Segment(backup) && file != [] && file[0] != SLASH
    ensures FileKey(root, backup, file) == RootPrefix(root) + (backup + [SLASH] + file)
  {
    var base := if root == [] || root[|root| - 1] == SLASH then root else root + [SLASH];
    assert backup[0] in backup && backup[|backup| - 1] in backup;
    var path := base + backup;
    assert BackupPath(root, backup) == path && path[|path| - 1] == backup[|backup| - 1];
    assert path + [SLASH] + file == base + (backup + [SLASH] + file);
    LStripAppend(base, backup + [SLASH] + file);
  }

  lemma ListPrefixForm(root: ByteString, backup: ByteString)
    requires Segment(backup)
    ensures ListPrefix(BackupPath(root, backup)) == RootPrefix(root) + (backup + [SLASH])
  {
    var base := if root == [] || root[|root| - 1] == SLASH then root else root + [SLASH];
    assert backup[0] in backup && backup[|backup| - 1] in backup;
    assert BackupPath(root, backup) == base + backup;
    LStripAppend(base, backup);
    var stripped := RootPrefix(root) + backup;
    assert stripped[|stripped| - 1] == backup[|backup| - 1];
    assert stripped + [SLASH] == RootPrefix(root) + (backup + [SLASH]);
  }

  /**
   * The listing that delete_backup works from selects exactly the keys of that backup, even when the name of one
   * backup begins with the name of another.
   */
  lemma ListsOneBackup(root: ByteString, listed: ByteString, backup: ByteString, file: ByteString)
    requires Segment(listed) && Segment(backup) && file != [] && file[0] != SLASH
    ensures ListPrefix(BackupPath(root, listed)) <= FileKey(root, backup, file) <==> listed == backup
  {
    ListPrefixForm(root, listed);
    FileKeyForm(root, backup, file);
    var first, second := listed + [SLASH], backup + [SLASH] + file;
    PrefixDrops(RootPrefix(root), first, second);
    if first <= second {
      FirstSlash(listed, backup, file);
    }
  }

  lemma PrefixDrops(a: ByteString, x: ByteString, y: ByteString)
    ensures a + x <= a + y <==> x <= y
  {
    if a + x <= a + y {
      assert x == (a + x)[|a|..] && y == (a + y)[|a|..];
      assert (a + y)[..|a + x|] == a + x;
      assert y[..|x|] == (a + y)[..|a + x|][|a|..];
    }
    if x <= y {
      assert a + y == (a + x) + y[|x|..];
    }
  }

  lemma FirstSlash(x: ByteString, y: ByteString, rest: ByteString)
    requires SlashFree(x) && SlashFree(y) && x + [SLASH] <= y + [SLASH] + rest
    ensures x == y
  {
    var s := y + [SLASH] + rest;
    var after := s[|x| + 1..];
    assert s == x + [SLASH] + after;
    NoSlashBefore(x, after);
    NoSlashBefore(y, rest);
    assert |x| == |y|;
    assert x == s[..|x|] && y == s[..|x|];
  }

  // ---------- which key an operation means

  /** The operations of the storage engine on a single object. */
  datatype Operation =
    | UploadFile | UploadData | DownloadFile | DownloadData | DeleteFile | BulkDelete | StartMultipartDownload
    | CreateMultipartUpload | UploadPart | CompleteMultipartUpload
    | PathExists | ObjectSize

  /** Multipart uploads and the two queries take the path as it is; the rest strips leading slashes. */
  function KeyFor(op: Operation, path: ByteString): ByteString {
    match op
    case CreateMultipartUpload | UploadPart | CompleteMultipartUpload => path
    case PathExists | ObjectSize => path
    case _ => LStrip(path)
  }

  predicate Strips(op: Operation) {
    op.UploadFile? || op.UploadData? || op.DownloadFile? || op.DownloadData? || op.DeleteFile? || op.BulkDelete? ||
    op.StartMultipartDownload?
  }

  /** The operations that take a path with a slash in front as it is. */
  lemma KeepsSlashIff(op: Operation, path: ByteString)
    requires path != [] && path[0] == SLASH
    ensures KeyFor(op, path) == path <==>
            || op.CreateMultipartUpload? || op.UploadPart? || op.CompleteMultipartUpload?
            || op.PathExists? || op.ObjectSize?
    ensures KeyFor(op, path) == path || KeyFor(op, path) == [] || KeyFor(op, path)[0] != SLASH
  {
    LStripShorter(path);
    LStripStops(path);
  }

  lemma {:induction false} LStripStops(s: ByteString)
    ensures LStrip(s) == [] || LStrip(s)[0] != SLASH
  {
    if s != [] && s[0] == SLASH {
      LStripStops(s[1..]);
    }
  }

  /**
   * Two operations on a file of a backup mean the same object exactly if both strip or neither does, or the configured
   * root does not begin with a slash. So under a root with a slash no query finds what a plain upload has written, and
   * no download finds what a multipart upload has.
   */
  lemma KeysAgreeIff(op: Operation, other: Operation, root: ByteString, backup: ByteString, file: ByteString)
    requires Segment(backup) && file != [] && file[0] != SLASH
    ensures var path := Join(BackupPath(root, backup), file);
            KeyFor(op, path) == KeyFor(other, path)
            <==> (Strips(op) <==> Strips(other)) || root == [] || root[0] != SLASH
  {
    var base := if root == [] || root[|root| - 1] == SLASH then root else root + [SLASH];
    assert backup[0] in backup && backup[|backup| - 1] in backup;
    var path := base + backup;
    assert BackupPath(root, backup) == path && path[|path| - 1] == backup[|backup| - 1];
    var key := Join(path, file);
    assert key == path + [SLASH] + file;
    LStripShorter(key);
  }

  lemma {:induction false} RStripCons(c: Byte, x: ByteString)
    ensures RStrip([c] + x) == if RStrip(x) == [] && c == SLASH then [] else [c] + RStrip(x)
  {
    if x == [] {
      assert [c] + x == [c] && [c][..0] == [];
      assert RStrip([c]) == if c == SLASH then RStrip([]) else [c];
    } else {
      assert ([c] + x)[..|x|] == [c] + x[..|x| - 1];
      RStripCons(c, x[..|x| - 1]);
    }
  }

  lemma {:induction false} StripsCommute(path: ByteString)
    ensures RStrip(LStrip(path)) == LStrip(RStrip(path))
    ensures RStrip(path) != [] ==> RStrip(path)[0] == path[0]
  {
    if path != [] {
      assert path == [path[0]] + path[1..];
      RStripCons(path[0], path[1..]);
      StripsCommute(path[1..]);
      if path[0] == SLASH && RStrip(path[1..]) != [] {
        assert RStrip(path)[1..] == RStrip(path[1..]);
      }
    }
  }

  /** `_directory_exists` asks for the path without slashes behind it, list_dir without slashes at either end. */
  lemma DirectoriesAgreeIff(path: ByteString)
    ensures RStrip(path) + [SLASH] == ListPrefix(path) <==> RStrip(path) == [] || path[0] != SLASH
  {
    StripsCommute(path);
    LStripShorter(RStrip(path));
    if RStrip(path) + [SLASH] == ListPrefix(path) {
      assert (RStrip(path) + [SLASH])[..|RStrip(path)|] == RStrip(path);
      assert ListPrefix(path)[..|ListPrefix(path)| - 1] == LStrip(RStrip(path));
    }
  }

  lemma {:induction false} LStripShorter(s: ByteString)
    ensures |LStrip(s)| <= |s| && (LStrip(s) == s <==> s == [] || s[0] != SLASH)
  {
    if s != [] && s[0] == SLASH {
      LStripShorter(s[1..]);
    }
  }

  // ---------- links in stored metadata

  function Basename(path: ByteString): (r: ByteString)
    ensures SlashFree(r)
  {
    if SlashFree(path) then path
    else Basename(path[1..])
  }

  /** normalize_backup_link. */
  function NormalizeLink(raw: ByteString): Option<ByteString> {
    if raw == [] then None else Some(Basename(RStrip(raw)))
  }

  /** How the link of a part is written into metadata: as a path, for older readers. */
  function LegacyLink(pathRoot: ByteString, link: ByteString): ByteString {
    if link == [] || !SlashFree(link) || pathRoot == [] then link else Join(pathRoot, link)
  }

  lemma {:induction false} BasenameAppend(a: ByteString, name: ByteString)
    requires SlashFree(name) && a != [] && a[|a| - 1] == SLASH
    ensures Basename(a + name) == name
  {
    assert a[|a| - 1] in a + name;
    if |a| == 1 {
      assert (a + name)[1..] == name;
    } else {
      assert (a + name)[1..] == a[1..] + name;
      BasenameAppend(a[1..], name);
    }
  }

  /** A link survives being stored and loaded exactly if the backup name has no slash in it. */
  lemma LinkRoundTripIff(pathRoot: ByteString, link: ByteString)
    requires link != []
    ensures NormalizeLink(LegacyLink(pathRoot, link)) == Some(link) <==> SlashFree(link)
  {
    if SlashFree(link) {
      assert link[0] in link && link[|link| - 1] in link;
      var raw := LegacyLink(pathRoot, link);
      assert raw[|raw| - 1] == link[|link| - 1];
      if pathRoot != [] {
        var base := if pathRoot[|pathRoot| - 1] == SLASH then pathRoot else pathRoot + [SLASH];
        assert raw == base + link;
        BasenameAppend(base, link);
      }
    }
  }
}
