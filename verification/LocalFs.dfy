/** LocalFS: each key is a content file and a metadata file named after the key's hash. The hash is any function
    to 64 hexadecimal digits under which the keys in play, a finite set, do not collide; this is what SHA-256 in
    hexadecimal is taken to be. */
module LocalFs {
  import opened Objects

  datatype Metadata = Metadata(contentType: string, cacheControl: string, expires: string, custom: map<string, string>)

  const EMPTY := Metadata("", "", "", map[])

  /** A file: raw content, metadata that decodes, or bytes that do not decode as metadata. */
  datatype File = Content(data: Bytes) | Info(meta: Metadata) | Damaged

  type Dir = map<string, File>

  predicate IsHex(c: char) {
    '0' <= c <= '9' || 'a' <= c <= 'f'
  }

  predicate IsDigest(s: string) {
    |s| == 64 && forall i :: 0 <= i < 64 ==> IsHex(s[i])
  }

  ghost predicate HashOk(hash: string -> string, keys: set<string>) {
    (forall k, j :: k in keys && j in keys && hash(k) == hash(j) ==> k == j) && (forall k :: IsDigest(hash(k)))
  }

  function MetaName(name: string): string {
    name + ".meta"
  }

  predicate IsMeta(name: string) {
    |name| >= 5 && name[|name| - 5..] == ".meta"
  }

  predicate IsTemp(name: string) {
    ".tmp" <= name
  }

  lemma NamesApart(hash: string -> string, keys: set<string>, k: string, j: string)
    requires HashOk(hash, keys)
    ensures !IsMeta(hash(k)) && !IsTemp(hash(k)) && IsMeta(MetaName(hash(k))) && !IsTemp(MetaName(hash(k)))
    ensures hash(k) != MetaName(hash(j))
    ensures k in keys && j in keys && MetaName(hash(k)) == MetaName(hash(j)) ==> k == j
  {
    assert IsDigest(hash(k)) && IsDigest(hash(j));
    assert IsHex(hash(k)[0]) && IsHex(hash(k)[59]) && !IsHex('.');
    assert hash(k)[59..][0] == hash(k)[59] != ".meta"[0];
    assert hash(k)[0] != ".tmp"[0] && MetaName(hash(k))[0] == hash(k)[0];
    assert MetaName(hash(k))[64..] == ".meta" && |MetaName(hash(j))| == 69;
    assert MetaName(hash(k))[..64] == hash(k) && MetaName(hash(j))[..64] == hash(j);
  }

  /** What is stored under a key. */
  datatype Stored = Absent | Present(content: Bytes, meta: Metadata) | Unreadable

  /** readMeta: a missing metadata file reads as empty metadata. */
  function ReadMeta(dir: Dir, name: string): Option<Metadata> {
    if MetaName(name) !in dir then Some(EMPTY)
    else if dir[MetaName(name)].Info? then Some(dir[MetaName(name)].meta)
    else None
  }

  function StoredAt(dir: Dir, name: string): Stored {
    if name !in dir then Absent
    else if !dir[name].Content? then Unreadable
    else
      match ReadMeta(dir, name)
      case None => Unreadable
      case Some(m) => Present(dir[name].data, m)
  }

  /** Every file is the content or the metadata of some key in play, or a temporary file. */
  ghost predicate Owned(hash: string -> string, keys: set<string>, dir: Dir) {
    forall name :: name in dir ==> IsTemp(name) || IsContentOf(hash, keys, dir, name) || IsMetaOf(hash, keys, name)
  }

  ghost predicate IsContentOf(hash: string -> string, keys: set<string>, dir: Dir, name: string)
    requires name in dir
  {
    dir[name].Content? && exists k :: k in keys && hash(k) == name
  }

  ghost predicate IsMetaOf(hash: string -> string, keys: set<string>, name: string) {
    exists k :: k in keys && MetaName(hash(k)) == name
  }

  lemma MetaOfIsMeta(hash: string -> string, keys: set<string>, name: string)
    requires HashOk(hash, keys) && IsMetaOf(hash, keys, name)
    ensures IsMeta(name) && forall k :: hash(k) != name
  {
    var j :| j in keys && MetaName(hash(j)) == name;
    forall k ensures hash(k) != name {
      NamesApart(hash, keys, k, j);
    }
    NamesApart(hash, keys, j, j);
  }

  lemma KeyFileIsContent(hash: string -> string, keys: set<string>, dir: Dir, key: string)
    requires HashOk(hash, keys) && Owned(hash, keys, dir) && hash(key) in dir
    ensures dir[hash(key)].Content? && !IsMeta(hash(key)) && !IsTemp(hash(key))
  {
    NamesApart(hash, keys, key, key);
    if IsMetaOf(hash, keys, hash(key)) {
      MetaOfIsMeta(hash, keys, hash(key));
    }
  }

  /** What a failed metadata write leaves: the metadata file as it was, bytes that do not decode, or the complete
      new metadata (when only closing the file fails). */
  datatype MetaLeft = Untouched | Torn | Complete

  /** Where a Write stops, and whether its clean-up works: a failed metadata write is followed by an attempt to
      remove the content file. */
  datatype WriteFault =
    | NoFault
    | NoTemp
    | CopyFails(partial: Bytes)
    | CloseFails
    | RenameFails
    | MetaFails(left: MetaLeft, removed: bool)

  datatype ReadFault = ReadFine | OpenFails | MetaReadFails

  class LocalFS {
    const hash: string -> string
    var dir: Dir

    /** The keys in play. */
    ghost const keys: set<string>

    ghost predicate Valid()
      reads this
    {
      HashOk(hash, keys) && Owned(hash, keys, dir)
    }

    /** The abstract view: what each key holds. */
    function Holds(key: string): Stored
      reads this
    {
      StoredAt(dir, hash(key))
    }

    constructor (hash: string -> string, ghost keys: set<string>)
      requires HashOk(hash, keys)
      ensures Valid() && this.hash == hash && this.keys == keys && forall k :: Holds(k) == Absent
    {
      this.hash, this.keys := hash, keys;
      dir := map[];
    }

    method Read(key: string, fault: ReadFault) returns (r: Option<(Bytes, Metadata)>)
      requires Valid()
      ensures r == if fault.ReadFine? && Holds(key).Present? then Some((Holds(key).content, Holds(key).meta)) else None
    {
      var p := hash(key);
      if p !in dir || fault.OpenFails? || !dir[p].Content? {
        return None;
      }
      var meta := if fault.MetaReadFails? then None else ReadMeta(dir, p);
      if meta.None? {
        return None;
      }
      r := Some((dir[p].data, meta.value));
    }

    /** Write to a temporary file, rename it, then write the metadata. `tmp` is the fresh name CreateTemp picks and
        `swept` says whether the deferred removal of the temporary file works. */
    method Write(key: string, content: Bytes, meta: Option<Metadata>, tmp: string, fault: WriteFault, swept: bool)
      returns (ok: bool)
      requires Valid() && key in keys && IsTemp(tmp) && tmp !in dir
      modifies this
      ensures Valid() && ok == fault.NoFault?
      ensures ok ==> Holds(key) == Present(content, if meta.Some? then meta.value else EMPTY)
      ensures !ok && !fault.MetaFails? ==> Holds(key) == old(Holds(key))
      ensures fault.MetaFails? && fault.removed ==> Holds(key) == Absent
      ensures fault.MetaFails? && !fault.removed ==>
        Holds(key) == match fault.left
          case Untouched => Renamed(old(dir), hash(key), content)
          case Torn => Unreadable
          case Complete => Present(content, if meta.Some? then meta.value else EMPTY)
      ensures fault.MetaFails? && fault.left.Untouched? && !fault.removed && MetaName(hash(key)) !in old(dir) ==>
        Holds(key) == Present(content, Metadata("", "", "", map[]))
      ensures forall k :: k in keys && k != key ==> Holds(k) == old(Holds(k))
    {
      var p := hash(key);
      ghost var dir0 := dir;
      AllKeyNames(key, tmp);
      assert KeyNames(key, key, tmp);
      if p in dir {
        KeyFileIsContent(hash, keys, dir, key);
      }
      var staged := Stage(p, content, tmp, fault, swept);
      ok := staged;
      if staged {
        ok := Describe(p, meta, fault);
      }
      OtherKeys(dir0, key, tmp);
    }

    /** The content half: a temporary file, renamed into place. */
    method Stage(p: string, content: Bytes, tmp: string, fault: WriteFault, swept: bool) returns (ok: bool)
      requires tmp !in dir && tmp != p
      modifies this
      ensures ok <==> fault.NoFault? || fault.MetaFails?
      ensures ok ==> dir == old(dir)[p := Content(content)]
      ensures !ok ==> dir - {tmp} == old(dir)
    {
      if fault.NoTemp? {
        assert dir - {tmp} == dir;
        return false;
      }
      ghost var dir0 := dir;
      dir := dir[tmp := Content([])];
      if fault.CopyFails? {
        dir := dir[tmp := Content(fault.partial)];
        Sweep(tmp, swept);
        return false;
      }
      dir := dir[tmp := Content(content)];
      if fault.CloseFails? || fault.RenameFails? {
        Sweep(tmp, swept);
        return false;
      }
      dir := dir[p := dir[tmp]] - {tmp};
      assert dir == dir0[p := Content(content)];
      ok := true;
    }

    /** The metadata half; a failure takes the content away again. */
    method Describe(p: string, meta: Option<Metadata>, fault: WriteFault) returns (ok: bool)
      requires p in dir && p != MetaName(p)
      modifies this
      ensures ok == !fault.MetaFails?
      ensures ok ==> dir == old(dir)[MetaName(p) := Info(if meta.Some? then meta.value else EMPTY)]
      ensures !ok ==>
        var left := match fault.left
          case Untouched => old(dir)
          case Torn => old(dir)[MetaName(p) := Damaged]
          case Complete => old(dir)[MetaName(p) := Info(if meta.Some? then meta.value else EMPTY)];
        dir == if fault.removed then left - {p} else left
    {
      if fault.MetaFails? {
        match fault.left {
          case Untouched =>
          case Torn => dir := dir[MetaName(p) := Damaged];
          case Complete => dir := dir[MetaName(p) := Info(if meta.Some? then meta.value else EMPTY)];
        }
        if fault.removed {
          dir := dir - {p};
        }
        return false;
      }
      dir := dir[MetaName(p) := Info(if meta.Some? then meta.value else EMPTY)];
      ok := true;
    }

    /** The new content next to whatever metadata was there. */
    static function Renamed(dir: Dir, name: string, content: Bytes): Stored {
      match ReadMeta(dir, name)
      case None => Unreadable
      case Some(m) => Present(content, m)
    }

    method Sweep(tmp: string, swept: bool)
      modifies this
      ensures dir == if swept then old(dir) - {tmp} else old(dir)
    {
      if swept {
        dir := dir - {tmp};
      }
    }

    ghost predicate KeyNames(k: string, key: string, tmp: string) {
      && hash(k) != tmp && MetaName(hash(k)) != tmp && hash(k) != MetaName(hash(key)) && MetaName(hash(k)) != hash(key)
      && (k != key ==> hash(k) != hash(key) && MetaName(hash(k)) != MetaName(hash(key)))
    }

    lemma AllKeyNames(key: string, tmp: string)
      requires HashOk(hash, keys) && key in keys && IsTemp(tmp)
      ensures forall k :: k in keys ==> KeyNames(k, key, tmp)
    {
      forall k | k in keys ensures KeyNames(k, key, tmp) {
        NamesApart(hash, keys, k, key);
        NamesApart(hash, keys, key, k);
      }
    }

    /** Changing only the files of one key, and a temporary one, changes no other key. */
    lemma OtherKeys(dir0: Dir, key: string, tmp: string)
      requires HashOk(hash, keys) && Owned(hash, keys, dir0) && key in keys && IsTemp(tmp)
      requires forall k :: k in keys ==> KeyNames(k, key, tmp)
      requires forall n :: n != tmp && n != hash(key) && n != MetaName(hash(key)) ==>
        (n in dir <==> n in dir0) && (n in dir ==> dir[n] == dir0[n])
      requires hash(key) in dir ==> dir[hash(key)].Content?
      ensures Owned(hash, keys, dir)
      ensures forall k :: k in keys && k != key ==> Holds(k) == StoredAt(dir0, hash(k))
    {
      forall name | name in dir ensures IsTemp(name) || IsContentOf(hash, keys, dir, name) || IsMetaOf(hash, keys, name) {
        if name != tmp && name != hash(key) && name != MetaName(hash(key)) {
          assert IsTemp(name) || IsContentOf(hash, keys, dir0, name) || IsMetaOf(hash, keys, name);
        }
      }
      forall k | k in keys && k != key ensures Holds(k) == StoredAt(dir0, hash(k)) {
        assert KeyNames(k, key, tmp);
      }
    }

    /** A content file that is already missing is not an error; the metadata file goes on a best-effort basis. */
    method Delete(key: string, removeOk: bool, metaOk: bool) returns (ok: bool)
      requires Valid() && key in keys
      modifies this
      ensures Valid()
      ensures ok <==> removeOk || old(Holds(key)).Absent?
      ensures Holds(key) == if ok then Absent else old(Holds(key))
      ensures forall k :: k in keys && k != key ==> Holds(k) == old(Holds(k))
    {
      var p := hash(key);
      ghost var dir0 := dir;
      AllKeyNames(key, ".tmp");
      assert KeyNames(key, key, ".tmp");
      if p in dir && !removeOk {
        return false;
      }
      dir := dir - {p};
      if metaOk {
        dir := dir - {MetaName(p)};
      }
      OtherKeys(dir0, key, ".tmp");
      ok := true;
    }

    /** A key's recorded name, when its metadata can be read and has one. */
    static function Recorded(s: Stored): Option<string> {
      if s.Present? && "key" in s.meta.custom then Some(s.meta.custom["key"]) else None
    }

    /** `from` enumerates, each once, the keys in play whose recorded name has the prefix; `names` are those names. */
    ghost predicate Listing(from: seq<string>, prefix: string, names: seq<string>)
      reads this
    {
      && |from| == |names|
      && (forall i, j :: 0 <= i < j < |from| ==> from[i] != from[j])
      && (forall i :: 0 <= i < |from| ==> from[i] in keys && Recorded(Holds(from[i])) == Some(names[i]) && prefix <= names[i])
      && (forall k :: k in keys && Recorded(Holds(k)).Some? && prefix <= Recorded(Holds(k)).value ==> k in from)
    }

    /** The listing when the files in `todo` have not been looked at yet. */
    ghost predicate Partial(from: seq<string>, prefix: string, names: seq<string>, todo: set<string>)
      reads this
    {
      && |from| == |names|
      && (forall i, j :: 0 <= i < j < |from| ==> from[i] != from[j])
      && (forall i :: 0 <= i < |from| ==>
            from[i] in keys && hash(from[i]) !in todo && Recorded(Holds(from[i])) == Some(names[i]) && prefix <= names[i])
      && (forall k :: k in keys && Recorded(Holds(k)).Some? && prefix <= Recorded(Holds(k)).value ==> k in from || hash(k) in todo)
    }

    lemma Skipped(from: seq<string>, prefix: string, names: seq<string>, todo: set<string>, name: string)
      requires Partial(from, prefix, names, todo)
      requires forall k :: k in keys && hash(k) == name ==> Recorded(Holds(k)).None? || !(prefix <= Recorded(Holds(k)).value)
      ensures Partial(from, prefix, names, todo - {name})
    {
    }

    lemma Taken(from: seq<string>, prefix: string, names: seq<string>, todo: set<string>, k: string, x: string)
      requires HashOk(hash, keys) && Partial(from, prefix, names, todo) && k in keys && hash(k) in todo
      requires Recorded(Holds(k)) == Some(x) && prefix <= x
      ensures Partial(from + [k], prefix, names + [x], todo - {hash(k)})
    {
      assert forall i :: 0 <= i < |from| ==> from[i] != k;
    }

    /** The names recorded for the keys present, filtered by prefix: once for each such key, in some order. */
    method List(prefix: string) returns (names: seq<string>)
      requires Valid()
      ensures exists from :: Listing(from, prefix, names)
    {
      names := [];
      ghost var from: seq<string> := [];
      var todo := dir.Keys;
      while todo != {}
        invariant todo <= dir.Keys && Partial(from, prefix, names, todo)
        decreases |todo|
      {
        var name :| name in todo;
        var r := Entry(name);
        if r.Some? && prefix <= r.value {
          ghost var k :| k in keys && hash(k) == name;
          Taken(from, prefix, names, todo, k, r.value);
          from := from + [k];
          names := names + [r.value];
        } else {
          Skipped(from, prefix, names, todo, name);
        }
        todo := todo - {name};
      }
      assert Listing(from, prefix, names);
    }

    /** One directory entry of List: the name it records, unless it is skipped. */
    method Entry(name: string) returns (r: Option<string>)
      requires Valid() && name in dir
      ensures forall k :: k in keys && hash(k) == name ==> r == Recorded(Holds(k))
      ensures r.Some? ==> exists k :: k in keys && hash(k) == name
    {
      forall k | k in keys && hash(k) == name ensures !IsMeta(name) && !IsTemp(name) && dir[name].Content? {
        KeyFileIsContent(hash, keys, dir, k);
      }
      if IsMeta(name) || IsTemp(name) {
        return None;
      }
      assert IsContentOf(hash, keys, dir, name) by {
        assert IsMetaOf(hash, keys, name) ==> IsMeta(name) by {
          if IsMetaOf(hash, keys, name) {
            MetaOfIsMeta(hash, keys, name);
          }
        }
      }
      var meta := ReadMeta(dir, name);
      if meta.None? {
        return None;
      }
      if "key" !in meta.value.custom {
        return None;
      }
      r := Some(meta.value.custom["key"]);
    }
  }

  /** The key is present, and its metadata holds the name in the field "key". */
  predicate NamedBy(fs: LocalFS, key: string, name: string)
    reads fs
  {
    fs.Holds(key).Present? && "key" in fs.Holds(key).meta.custom && fs.Holds(key).meta.custom["key"] == name
  }

  /** A name is listed exactly when some key in play is present with it in the metadata field "key", and it has the
      prefix; so a key that was written with its own name is listed under each of its prefixes. */
  lemma ListedExactly(fs: LocalFS, from: seq<string>, prefix: string, names: seq<string>)
    requires fs.Valid() && fs.Listing(from, prefix, names)
    ensures forall x :: x in names <==> prefix <= x && exists k :: k in fs.keys && NamedBy(fs, k, x)
    ensures forall key :: key in fs.keys && prefix <= key && NamedBy(fs, key, key) ==> key in names
  {
    forall x ensures x in names <==> prefix <= x && exists k :: k in fs.keys && NamedBy(fs, k, x) {
      if x in names {
        var i :| 0 <= i < |names| && names[i] == x;
        assert LocalFS.Recorded(fs.Holds(from[i])) == Some(x);
        assert NamedBy(fs, from[i], x);
      }
      if k :| k in fs.keys && NamedBy(fs, k, x) && prefix <= x {
        assert LocalFS.Recorded(fs.Holds(k)) == Some(x);
        var i :| 0 <= i < |from| && from[i] == k;
        assert names[i] == x;
      }
    }
  }

  /** When the metadata of every key in play records the key itself, List returns exactly the keys present that
      record one, each of them once. */
  lemma ListedKeysArePresent(fs: LocalFS, from: seq<string>, prefix: string, names: seq<string>)
    requires fs.Valid() && fs.Listing(from, prefix, names)
    requires forall k :: k in fs.keys && LocalFS.Recorded(fs.Holds(k)).Some? ==> LocalFS.Recorded(fs.Holds(k)) == Some(k)
    ensures forall x :: x in names <==> x in fs.keys && prefix <= x && LocalFS.Recorded(fs.Holds(x)).Some?
    ensures forall i, j :: 0 <= i < j < |names| ==> names[i] != names[j]
  {
    assert names == from;
  }

  // ---- such hashes exist ----

  function Pow16(n: nat): nat {
    if n == 0 then 1 else 16 * Pow16(n - 1)
  }

  function HexChar(d: nat): char
    requires d < 16
  {
    if d < 10 then '0' + d as char else 'a' + (d - 10) as char
  }

  /** The lowest n hexadecimal digits of a number. */
  function Hex(x: nat, n: nat): string {
    if n == 0 then "" else Hex(x / 16, n - 1) + [HexChar(x % 16)]
  }

  lemma {:induction false} HexFacts(x: nat, n: nat)
    ensures |Hex(x, n)| == n && forall i :: 0 <= i < n ==> IsHex(Hex(x, n)[i])
  {
    if n > 0 {
      HexFacts(x / 16, n - 1);
    }
  }

  lemma {:induction false} HexInjective(x: nat, y: nat, n: nat)
    requires x < Pow16(n) && y < Pow16(n) && Hex(x, n) == Hex(y, n)
    ensures x == y
  {
    if n > 0 {
      HexFacts(x / 16, n - 1);
      HexFacts(y / 16, n - 1);
      var a, b := Hex(x, n), Hex(y, n);
      assert a[..n - 1] == Hex(x / 16, n - 1) && b[..n - 1] == Hex(y / 16, n - 1);
      assert a[n - 1] == HexChar(x % 16) && b[n - 1] == HexChar(y % 16);
      HexInjective(x / 16, y / 16, n - 1);
    }
  }

  /** The keys can be numbered. */
  lemma {:induction false} Numbering(keys: set<string>) returns (number: map<string, nat>)
    ensures number.Keys == keys && forall k :: k in keys ==> number[k] < |keys|
    ensures forall k, j :: k in keys && j in keys && number[k] == number[j] ==> k == j
    decreases |keys|
  {
    if keys == {} {
      number := map[];
    } else {
      var x :| x in keys;
      var rest := Numbering(keys - {x});
      number := rest[x := |keys| - 1];
      forall k | k in keys ensures number[k] < |keys| && (k != x ==> number[k] < |keys| - 1) {
        assert k != x ==> k in rest;
      }
    }
  }

  /** The number a string of hexadecimal digits denotes. */
  function Value(s: string): nat {
    if s == "" then 0 else 16 * Value(s[..|s| - 1]) + Digit(s[|s| - 1])
  }

  function Digit(c: char): nat {
    if '0' <= c <= '9' then (c - '0') as nat else if 'a' <= c <= 'f' then (c - 'a') as nat + 10 else 0
  }

  lemma {:induction false} ValueBound(s: string)
    requires forall i :: 0 <= i < |s| ==> IsHex(s[i])
    ensures Value(s) < Pow16(|s|)
  {
    if s != "" {
      ValueBound(s[..|s| - 1]);
    }
  }

  lemma {:induction false} ValueInjective(s: string, t: string)
    requires |s| == |t| && (forall i :: 0 <= i < |s| ==> IsHex(s[i])) && forall i :: 0 <= i < |t| ==> IsHex(t[i])
    requires Value(s) == Value(t)
    ensures s == t
  {
    if s != "" {
      var n := |s| - 1;
      SameDigit(s[n], t[n]);
      ValueInjective(s[..n], t[..n]);
      assert s == s[..n] + [s[n]] && t == t[..n] + [t[n]];
    }
  }

  lemma SameDigit(c: char, d: char)
    requires IsHex(c) && IsHex(d)
    ensures Digit(c) < 16 && Digit(d) < 16 && (Digit(c) == Digit(d) ==> c == d)
  {
  }

  /** Distinct numbers below a bound are no more than the bound. */
  lemma {:induction false} FewNumbers(xs: set<nat>, bound: nat)
    requires forall x :: x in xs ==> x < bound
    ensures |xs| <= bound
  {
    if bound > 0 {
      FewNumbers(xs - {bound - 1}, bound - 1);
      assert xs - {bound - 1} == xs || |xs - {bound - 1}| == |xs| - 1;
    } else {
      assert xs == {};
    }
  }

  lemma {:induction false} ImageSize(keys: set<string>, f: string -> nat)
    requires forall k, j :: k in keys && j in keys && f(k) == f(j) ==> k == j
    ensures |set k | k in keys :: f(k)| == |keys|
    decreases |keys|
  {
    if keys != {} {
      var x :| x in keys;
      ImageSize(keys - {x}, f);
      assert (set k | k in keys :: f(k)) == (set k | k in keys - {x} :: f(k)) + {f(x)};
    }
  }

  lemma EnoughDigests(keys: set<string>) returns (hash: string -> string)
    requires |keys| <= Pow16(64)
    ensures HashOk(hash, keys)
  {
    var number := Numbering(keys);
    hash := (k: string) => Hex(if k in number then number[k] else 0, 64);
    forall k ensures IsDigest(hash(k)) {
      HexFacts(if k in number then number[k] else 0, 64);
    }
    forall k, j | k in keys && j in keys && hash(k) == hash(j) ensures k == j {
      HexInjective(number[k], number[j], 64);
    }
  }

  lemma NoMoreKeys(hash: string -> string, keys: set<string>)
    requires HashOk(hash, keys)
    ensures |keys| <= Pow16(64)
  {
    var f := (k: string) => Value(hash(k));
    forall k, j | k in keys && j in keys && f(k) == f(j) ensures k == j {
      assert IsDigest(hash(k)) && IsDigest(hash(j));
      ValueInjective(hash(k), hash(j));
    }
    ImageSize(keys, f);
    var values := set k | k in keys :: f(k);
    forall x | x in values ensures x < Pow16(64) {
      var k :| k in keys && x == f(k);
      assert IsDigest(hash(k));
      ValueBound(hash(k));
    }
    FewNumbers(values, Pow16(64));
  }

  /** The assumption can be met exactly for key sets no larger than the number of digests. */
  lemma HashesExist(keys: set<string>)
    ensures (exists hash :: HashOk(hash, keys)) <==> |keys| <= Pow16(64)
  {
    if |keys| <= Pow16(64) {
      var hash := EnoughDigests(keys);
    }
    forall hash: string -> string | HashOk(hash, keys) ensures |keys| <= Pow16(64) {
      NoMoreKeys(hash, keys);
    }
  }
}
