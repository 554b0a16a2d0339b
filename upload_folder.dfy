/**
 * The per-user upload folder of PostInteractionController::store:
 * `posts/<user id>-<name>`, where every byte of the user's name outside
 * [A-Za-z0-9_-] becomes `_`. The pattern has no `u` flag, so it works on the
 * name's UTF-8 bytes: a character outside ASCII turns into two to four `_`.
 */
module UploadFolder {
  import opened Records
  import opened Text

  /** The characters the folder pattern keeps. */
  predicate AllowedChar(c: char) {
    ('A' <= c <= 'Z') || ('a' <= c <= 'z') || ('0' <= c <= '9') || c == '_' || c == '-'
  }

  /** A byte the pattern keeps: an ASCII byte whose character is allowed. */
  predicate AllowedByte(b: Byte) {
    b < 0x80 && AllowedChar(b as char)
  }

  /** The byte-wise replacement, each byte read back as a character. */
  function SanitizeBytes(bs: seq<Byte>): (r: string)
    ensures |r| == |bs|
    ensures forall i | 0 <= i < |bs| :: r[i] == if AllowedByte(bs[i]) then bs[i] as char else '_'
  {
    if bs == [] then [] else [if AllowedByte(bs[0]) then bs[0] as char else '_'] + SanitizeBytes(bs[1..])
  }

  /**
   * The sanitised user name used in the folder: only [A-Za-z0-9_-], one
   * character per byte of the name's UTF-8 encoding.
   */
  function SanitizeName(name: string): (r: string)
    ensures |r| == |Utf8(name)| >= |name|
    ensures forall i | 0 <= i < |r| :: AllowedChar(r[i])
  {
    SanitizeBytes(Utf8(name))
  }

  /** The folder an upload of user `userId` named `name` is stored in. */
  function Folder(userId: UserId, name: string): (f: string)
    ensures |f| > 6 && f[..6] == "posts/"
    ensures forall i | 6 <= i < |f| :: f[i] != '/' && f[i] != '.'
  {
    var f := "posts/" + Decimal(userId) + "-" + SanitizeName(name);
    assert forall i | 6 + |Decimal(userId)| + 1 <= i < |f| :: AllowedChar(f[i]);
    f
  }

  /** The path a stored upload gets: the file's generated name inside the folder. */
  function StoredPath(folder: string, fileName: string): (path: string)
    ensures |path| == |folder| + 1 + |fileName|
    ensures path[..|folder|] == folder && path[|folder|] == '/' && path[|folder| + 1..] == fileName
  {
    folder + "/" + fileName
  }

  /** On an ASCII name the folder name keeps the length and maps each character on its own. */
  lemma SanitizeAscii(name: string)
    requires IsAscii(name)
    ensures |SanitizeName(name)| == |name|
    ensures forall i | 0 <= i < |name| ::
      SanitizeName(name)[i] == if AllowedChar(name[i]) then name[i] else '_'
  {
    Utf8Ascii(name);
  }

  /** A character outside ASCII becomes as many `_` as it has UTF-8 bytes, at least two. */
  lemma SanitizeNonAscii(c: char)
    requires c as int >= 0x80
    ensures 2 <= |SanitizeName([c])| <= 4
    ensures forall i | 0 <= i < |SanitizeName([c])| :: SanitizeName([c])[i] == '_'
  {
    assert Utf8([c]) == Utf8Char(c) + Utf8([]);
  }

  /** Sanitising works character by character. */
  lemma SanitizeAppend(a: string, b: string)
    ensures SanitizeName(a + b) == SanitizeName(a) + SanitizeName(b)
  {
    Utf8Append(a, b);
    SanitizeBytesAppend(Utf8(a), Utf8(b));
  }

  lemma SanitizeBytesAppend(x: seq<Byte>, y: seq<Byte>)
    ensures SanitizeBytes(x + y) == SanitizeBytes(x) + SanitizeBytes(y)
  {
    var l, r := SanitizeBytes(x + y), SanitizeBytes(x) + SanitizeBytes(y);
    forall i | 0 <= i < |l| ensures l[i] == r[i] {
      if i < |x| {
        assert (x + y)[i] == x[i];
      } else {
        assert (x + y)[i] == y[i - |x|];
      }
    }
  }

  /** Sanitising an already sanitised name changes nothing. */
  lemma SanitizeIdempotent(name: string)
    ensures SanitizeName(SanitizeName(name)) == SanitizeName(name)
  {
    var s := SanitizeName(name);
    assert IsAscii(s);
    SanitizeAscii(s);
  }

  /** The position of the first `-` in `s`, or `|s|` when there is none. */
  function DashIndex(s: string): (k: nat)
    ensures k <= |s|
  {
    if s == [] || s[0] == '-' then 0 else 1 + DashIndex(s[1..])
  }

  /** The digits of the id are followed by the first `-` of the folder, so the id can be read off. */
  lemma {:induction false} DashAfter(d: string, rest: string)
    requires forall i | 0 <= i < |d| :: d[i] != '-'
    ensures DashIndex(d + "-" + rest) == |d|
  {
    if d != [] {
      assert (d + "-" + rest)[1..] == d[1..] + "-" + rest;
      DashAfter(d[1..], rest);
    }
  }

  /** What follows `posts/` in a folder: the id's digits, a dash and the sanitised name. */
  lemma FolderTail(id: UserId, name: string)
    ensures Folder(id, name)[6..] == Decimal(id) + "-" + SanitizeName(name)
  {
    var t := Decimal(id) + "-" + SanitizeName(name);
    assert Folder(id, name) == "posts/" + t;
    assert ("posts/" + t)[6..] == t;
  }

  /** Two users never share an upload folder: the folder determines the user id. */
  lemma FolderDeterminesUser(a: UserId, nameA: string, b: UserId, nameB: string)
    requires Folder(a, nameA) == Folder(b, nameB)
    ensures a == b
  {
    var da, sa := Decimal(a), SanitizeName(nameA);
    var db, sb := Decimal(b), SanitizeName(nameB);
    FolderTail(a, nameA);
    FolderTail(b, nameB);
    var t := da + "-" + sa;
    assert t == db + "-" + sb;
    DashAfter(da, sa);
    DashAfter(db, sb);
    assert da == t[..|da|] == t[..|db|] == db;
    DecimalInjective(a, b);
  }
}
