/** Linking library addresses into hexadecimal bytecode: every placeholder a compiled artifact lists
    is spliced out for the address of its library. */
module LinkBytecode {

  /** A placeholder, in bytes after the leading 0x. */
  datatype Fixup = Fixup(start: nat, length: nat)

  datatype Library = Library(name: string, fixups: seq<Fixup>)

  datatype SourceFile = SourceFile(name: string, libraries: seq<Library>)

  type Addresses = map<string, string>

  /** The first n characters, or all there are. */
  function Head(s: string, n: nat): string {
    if n <= |s| then s[..n] else s
  }

  /** What follows the first n characters, if anything. */
  function Tail(s: string, n: nat): string {
    if n <= |s| then s[n..] else ""
  }

  /** Cutting a text anywhere, even beyond its end, loses nothing and takes no more than asked for. */
  lemma HeadAndTail(s: string, n: nat)
    ensures Head(s, n) + Tail(s, n) == s
    ensures |Head(s, n)| == if n <= |s| then n else |s|
  {
  }

  // ---------- Specification: one patch after another ----------

  datatype Patch = Patch(fixup: Fixup, addr: string) {
    function Lo(): nat { 2 + fixup.start * 2 }
    function Hi(): nat { 2 + (fixup.start + fixup.length) * 2 }
  }

  function Splice(code: string, p: Patch): string {
    Head(code, p.Lo()) + Tail(p.addr, 2) + Tail(code, p.Hi())
  }

  function Apply(code: string, patches: seq<Patch>): string {
    if patches == [] then code
    else Splice(Apply(code, patches[..|patches| - 1]), patches[|patches| - 1])
  }

  function FixupPatches(fixups: seq<Fixup>, addr: string): seq<Patch> {
    if fixups == [] then []
    else FixupPatches(fixups[..|fixups| - 1], addr) + [Patch(fixups[|fixups| - 1], addr)]
  }

  /** A library without an address is left for later. */
  function LibraryPatches(libraries: seq<Library>, addresses: Addresses): seq<Patch> {
    if libraries == [] then [] else
      var last := libraries[|libraries| - 1];
      LibraryPatches(libraries[..|libraries| - 1], addresses)
      + if last.name in addresses then FixupPatches(last.fixups, addresses[last.name]) else []
  }

  function FilePatches(files: seq<SourceFile>, addresses: Addresses): seq<Patch> {
    if files == [] then []
    else FilePatches(files[..|files| - 1], addresses) + LibraryPatches(files[|files| - 1].libraries, addresses)
  }

  lemma {:induction false} ApplyJoins(code: string, first: seq<Patch>, second: seq<Patch>)
    ensures Apply(code, first + second) == Apply(Apply(code, first), second)
  {
    if second == [] {
      assert first + second == first;
    } else {
      var init := second[..|second| - 1];
      assert (first + second)[..|first + second| - 1] == first + init;
      ApplyJoins(code, first, init);
    }
  }

  lemma OneMoreFixup(code: string, fixups: seq<Fixup>, addr: string, i: nat)
    requires i < |fixups|
    ensures Apply(code, FixupPatches(fixups[..i + 1], addr))
            == Splice(Apply(code, FixupPatches(fixups[..i], addr)), Patch(fixups[i], addr))
  {
    assert fixups[..i + 1][..i] == fixups[..i];
    var patches := FixupPatches(fixups[..i + 1], addr);
    assert patches[..|patches| - 1] == FixupPatches(fixups[..i], addr);
  }

  lemma SpliceInPlace(code: string, fixup: Fixup, addr: string)
    ensures Splice(code, Patch(fixup, addr))
            == Head(code, 2 + fixup.start * 2) + Tail(addr, 2) + Tail(code, 2 + (fixup.start + fixup.length) * 2)
  {
  }

  lemma ApplyNone(code: string)
    ensures Apply(code, []) == code
  {
  }

  method Link(bytecode: string, linkReferences: seq<SourceFile>, libraries: Addresses) returns (code: string)
    ensures code == Apply(bytecode, FilePatches(linkReferences, libraries))
  {
    hide Apply, FixupPatches;
    code := bytecode;
    ApplyNone(code);
    assert linkReferences[..|linkReferences|] == linkReferences;
    for f := 0 to |linkReferences|
      invariant code == Apply(bytecode, FilePatches(linkReferences[..f], libraries))
    {
      ghost var before := code;
      ApplyNone(before);
      var fileReferences := linkReferences[f].libraries;
      assert linkReferences[..f + 1][..f] == linkReferences[..f];
      assert fileReferences[..|fileReferences|] == fileReferences;
      for l := 0 to |fileReferences|
        invariant code == Apply(before, LibraryPatches(fileReferences[..l], libraries))
      {
        assert fileReferences[..l + 1][..l] == fileReferences[..l];
        if fileReferences[l].name !in libraries {
          assert LibraryPatches(fileReferences[..l + 1], libraries) == LibraryPatches(fileReferences[..l], libraries);
          continue;
        }
        var addr := libraries[fileReferences[l].name];
        var fixups := fileReferences[l].fixups;
        code := LinkFixups(code, fixups, addr);
        ApplyJoins(before, LibraryPatches(fileReferences[..l], libraries), FixupPatches(fixups, addr));
      }
      ApplyJoins(bytecode, FilePatches(linkReferences[..f], libraries), LibraryPatches(fileReferences, libraries));
    }
  }

  /** The innermost loop: all placeholders of one library. */
  method LinkFixups(bytecode: string, fixups: seq<Fixup>, addr: string) returns (code: string)
    ensures code == Apply(bytecode, FixupPatches(fixups, addr))
  {
    code := bytecode;
    assert fixups[..|fixups|] == fixups && fixups[..0] == [];
    ApplyNone(bytecode);
    assert FixupPatches(fixups[..0], addr) == [];
    hide Apply, FixupPatches, Head, Tail, Splice;
    for i := 0 to |fixups|
      invariant code == Apply(bytecode, FixupPatches(fixups[..i], addr))
    {
      OneMoreFixup(bytecode, fixups, addr, i);
      var fixup := fixups[i];
      SpliceInPlace(code, fixup, addr);
      code := Head(code, 2 + fixup.start * 2) + Tail(addr, 2) + Tail(code, 2 + (fixup.start + fixup.length) * 2);
    }
  }

  // ---------- What linking preserves ----------

  ghost predicate Covers(p: Patch, k: nat) {
    p.Lo() <= k < p.Hi()
  }

  /** Placeholders inside the code, apart from each other, each as long as its address. */
  ghost predicate Valid(size: nat, patches: seq<Patch>) {
    && (forall i :: 0 <= i < |patches| ==>
          patches[i].Hi() <= size && |patches[i].addr| == 2 + 2 * patches[i].fixup.length)
    && (forall i, k, j :: 0 <= i < j < |patches| && Covers(patches[i], k) ==> !Covers(patches[j], k))
  }

  /** If the patch covers the position, it puts its address's character there. */
  ghost predicate Puts(p: Patch, k: nat, c: char) {
    Covers(p, k) ==> k - p.Lo() + 2 < |p.addr| && c == p.addr[k - p.Lo() + 2]
  }

  /** The character linking shows at a position: a covering patch's, or else the code's own. */
  ghost predicate Shows(patches: seq<Patch>, code: string, k: nat, c: char)
    requires k < |code|
  {
    && (forall i :: 0 <= i < |patches| ==> Puts(patches[i], k, c))
    && ((forall i :: 0 <= i < |patches| ==> !Covers(patches[i], k)) ==> c == code[k])
  }

  lemma SpliceFrame(code: string, p: Patch)
    requires p.Hi() <= |code| && |p.addr| == 2 + 2 * p.fixup.length
    ensures |Splice(code, p)| == |code|
    ensures forall k :: 0 <= k < |code| ==>
              Splice(code, p)[k] == if Covers(p, k) then p.addr[k - p.Lo() + 2] else code[k]
  {
  }

  lemma ValidPrefix(size: nat, patches: seq<Patch>, last: Patch)
    requires Valid(size, patches + [last])
    ensures Valid(size, patches)
    ensures last.Hi() <= size && |last.addr| == 2 + 2 * last.fixup.length
    ensures forall i, k :: 0 <= i < |patches| && Covers(last, k) ==> !Covers(patches[i], k)
  {
    var all := patches + [last];
    assert forall i :: 0 <= i < |patches| ==> all[i] == patches[i];
    assert all[|patches|] == last;
    forall i, k | 0 <= i < |patches| && Covers(last, k)
      ensures !Covers(patches[i], k)
    {
      assert Covers(all[|patches|], k);
    }
  }

  lemma ShowsNext(patches: seq<Patch>, last: Patch, code: string, k: nat, c: char, d: char)
    requires k < |code| && Shows(patches, code, k, c)
    requires Covers(last, k) ==> Puts(last, k, d) && forall i :: 0 <= i < |patches| ==> !Covers(patches[i], k)
    requires !Covers(last, k) ==> d == c
    ensures Shows(patches + [last], code, k, d)
  {
    var all := patches + [last];
    assert all[|patches|] == last;
    assert forall i :: 0 <= i < |patches| ==> all[i] == patches[i];
  }

  /** Linking keeps the length, writes every supplied address at each of its placeholders, and leaves
      every other character alone. */
  lemma {:induction false} LinkFrame(code: string, patches: seq<Patch>)
    requires Valid(|code|, patches)
    ensures |Apply(code, patches)| == |code|
    ensures forall k :: 0 <= k < |code| ==> Shows(patches, code, k, Apply(code, patches)[k])
  {
    if patches != [] {
      var init, last := patches[..|patches| - 1], patches[|patches| - 1];
      assert patches == init + [last];
      ValidPrefix(|code|, init, last);
      LinkFrame(code, init);
      var mid := Apply(code, init);
      SpliceFrame(mid, last);
      hide Splice, Valid, Shows;
      forall k | 0 <= k < |code|
        ensures Shows(patches, code, k, Apply(code, patches)[k])
      {
        ShowsNext(init, last, code, k, mid[k], Splice(mid, last)[k]);
      }
    }
  }

  /** In particular, each placeholder reads as its address without the 0x. */
  lemma AddressWritten(code: string, patches: seq<Patch>, i: nat)
    requires Valid(|code|, patches) && i < |patches|
    ensures |Apply(code, patches)| == |code|
    ensures Apply(code, patches)[patches[i].Lo()..patches[i].Hi()] == patches[i].addr[2..]
  {
    LinkFrame(code, patches);
    var linked, p := Apply(code, patches), patches[i];
    forall n | 0 <= n < 2 * p.fixup.length
      ensures linked[p.Lo()..p.Hi()][n] == p.addr[2..][n]
    {
      assert Shows(patches, code, p.Lo() + n, linked[p.Lo() + n]);
      assert Puts(p, p.Lo() + n, linked[p.Lo() + n]);
    }
  }

  /** The shown character is the only one. */
  lemma ShowsOne(first: seq<Patch>, second: seq<Patch>, code: string, k: nat, c: char, d: char)
    requires Valid(|code|, first) && Valid(|code|, second) && k < |code|
    requires forall p :: p in first <==> p in second
    requires Shows(first, code, k, c) && Shows(second, code, k, d)
    ensures c == d
  {
    if i :| 0 <= i < |first| && Covers(first[i], k) {
      assert first[i] in second;
      var j :| 0 <= j < |second| && second[j] == first[i];
    } else {
      forall j | 0 <= j < |second|
        ensures !Covers(second[j], k)
      {
        assert second[j] in first;
      }
    }
  }

  // ---------- Visiting order ----------

  lemma {:induction false} TwoPlaces(patches: seq<Patch>, p: Patch) returns (i: nat, j: nat)
    requires multiset(patches)[p] >= 2
    ensures i < j < |patches| && patches[i] == patches[j] == p
  {
    var init, last := patches[..|patches| - 1], patches[|patches| - 1];
    assert patches == init + [last];
    if last == p {
      assert p in multiset(init) && p in init;
      i :| 0 <= i < |init| && init[i] == p;
      j := |patches| - 1;
    } else {
      i, j := TwoPlaces(init, p);
    }
  }

  lemma TwiceCounted(patches: seq<Patch>, i: nat, j: nat)
    requires i < j < |patches| && patches[i] == patches[j]
    ensures multiset(patches)[patches[i]] >= 2
  {
    assert patches == patches[..j] + patches[j..];
    assert patches[i] in patches[..j] && patches[j] in patches[j..];
  }

  /** Validity is about which patches there are, not about their order. */
  lemma ValidInAnyOrder(size: nat, first: seq<Patch>, second: seq<Patch>)
    requires Valid(size, first) && multiset(first) == multiset(second)
    ensures Valid(size, second)
    ensures forall p :: p in first <==> p in second
  {
    forall p
      ensures p in first <==> p in second
    {
      assert p in multiset(first) <==> p in multiset(second);
    }
    forall i | 0 <= i < |second|
      ensures second[i].Hi() <= size && |second[i].addr| == 2 + 2 * second[i].fixup.length
    {
      assert second[i] in first;
    }
    forall i, k, j | 0 <= i < j < |second| && Covers(second[i], k)
      ensures !Covers(second[j], k)
    {
      var a: nat, b: nat;
      if second[i] == second[j] {
        TwiceCounted(second, i, j);
        a, b := TwoPlaces(first, second[i]);
      } else {
        assert second[i] in first && second[j] in first;
        a :| a < |first| && first[a] == second[i];
        b :| b < |first| && first[b] == second[j];
      }
      assert a < b || b < a;
    }
  }

  /** The order of the patches does not matter. */
  lemma OrderDoesNotMatter(code: string, first: seq<Patch>, second: seq<Patch>)
    requires Valid(|code|, first) && multiset(first) == multiset(second)
    ensures Apply(code, first) == Apply(code, second)
  {
    ValidInAnyOrder(|code|, first, second);
    LinkFrame(code, first);
    LinkFrame(code, second);
    var a, b := Apply(code, first), Apply(code, second);
    forall k | 0 <= k < |code|
      ensures a[k] == b[k]
    {
      ShowsOne(first, second, code, k, a[k], b[k]);
    }
  }

  // ---------- Sums over sequences, in no order ----------

  function Sum<T, V>(s: seq<T>, part: T -> multiset<V>): multiset<V> {
    if s == [] then multiset{} else Sum(s[..|s| - 1], part) + part(s[|s| - 1])
  }

  function Keys<T, K>(s: seq<T>, key: T -> K): (keys: multiset<K>)
    ensures |keys| == |s|
  {
    if s == [] then multiset{} else Keys(s[..|s| - 1], key) + multiset{key(s[|s| - 1])}
  }

  function Without<T>(s: seq<T>, i: nat): seq<T>
    requires i < |s|
  {
    s[..i] + s[i + 1..]
  }

  lemma LastInFront<T>(s: seq<T>, i: nat)
    requires i < |s| - 1
    ensures |Without(s, i)| == |s| - 1
    ensures Without(s, i)[..|s| - 2] == Without(s[..|s| - 1], i)
    ensures Without(s, i)[|s| - 2] == s[|s| - 1]
  {
  }

  lemma {:induction false} SumWithout<T, V>(s: seq<T>, i: nat, part: T -> multiset<V>)
    requires i < |s|
    ensures Sum(s, part) == Sum(Without(s, i), part) + part(s[i])
  {
    if i < |s| - 1 {
      SumWithout(s[..|s| - 1], i, part);
      LastInFront(s, i);
    } else {
      assert Without(s, i) == s[..i];
    }
  }

  lemma {:induction false} KeysWithout<T, K>(s: seq<T>, i: nat, key: T -> K)
    requires i < |s|
    ensures Keys(s, key) == Keys(Without(s, i), key) + multiset{key(s[i])}
  {
    if i < |s| - 1 {
      KeysWithout(s[..|s| - 1], i, key);
      LastInFront(s, i);
    } else {
      assert Without(s, i) == s[..i];
    }
  }

  lemma {:induction false} Keyed<T, K>(s: seq<T>, key: T -> K, k: K) returns (j: nat)
    requires k in Keys(s, key)
    ensures j < |s| && key(s[j]) == k
  {
    if key(s[|s| - 1]) == k {
      j := |s| - 1;
    } else {
      j := Keyed(s[..|s| - 1], key, k);
    }
  }

  /** Sequences with the same keys have the same sum of parts, if a part is told by its key. */
  lemma {:induction false} SumByKeys<T(!new), K, V>(s: seq<T>, t: seq<T>, key: T -> K, part: T -> multiset<V>)
    requires Keys(s, key) == Keys(t, key)
    requires forall a, b :: key(a) == key(b) ==> part(a) == part(b)
    ensures Sum(s, part) == Sum(t, part)
    decreases |s|
  {
    if s != [] {
      var n := |s| - 1;
      var k := key(s[n]);
      KeysWithout(s, n, key);
      var j := Keyed(t, key, k);
      KeysWithout(t, j, key);
      SumWithout(s, n, part);
      SumWithout(t, j, part);
      hide Sum, Keys, Without;
      OneLess(Keys(Without(s, n), key), Keys(Without(t, j), key), k);
      assert |Without(s, n)| < |s| by { ShorterWithout(s, n); }
      SumByKeys(Without(s, n), Without(t, j), key, part);
    } else {
      assert |t| == 0;
    }
  }

  lemma ShorterWithout<T>(s: seq<T>, i: nat)
    requires i < |s|
    ensures |Without(s, i)| == |s| - 1
  {
  }

  lemma OneLess<K>(a: multiset<K>, b: multiset<K>, k: K)
    requires a + multiset{k} == b + multiset{k}
    ensures a == b
  {
    assert a == (a + multiset{k}) - multiset{k};
  }

  // ---------- Files, libraries and placeholders in any order ----------

  /** A library by what it asks for: its name, and its placeholders in no order. */
  function LibraryKey(lib: Library): (string, multiset<Fixup>) {
    (lib.name, multiset(lib.fixups))
  }

  /** A file by what its libraries ask for, in no order. */
  function FileKey(file: SourceFile): multiset<(string, multiset<Fixup>)> {
    Keys(file.libraries, LibraryKey)
  }

  function PatchesOfFixup(fixup: Fixup, addr: string): multiset<Patch> {
    multiset{Patch(fixup, addr)}
  }

  function PatchesOfLibrary(lib: Library, addresses: Addresses): multiset<Patch> {
    if lib.name in addresses then multiset(FixupPatches(lib.fixups, addresses[lib.name])) else multiset{}
  }

  lemma {:induction false} FixupPatchesSum(fixups: seq<Fixup>, addr: string, part: Fixup -> multiset<Patch>)
    requires forall f :: part(f) == PatchesOfFixup(f, addr)
    ensures multiset(FixupPatches(fixups, addr)) == Sum(fixups, part)
  {
    if fixups != [] { FixupPatchesSum(fixups[..|fixups| - 1], addr, part); }
  }

  lemma {:induction false} KeysOfItself(fixups: seq<Fixup>, key: Fixup -> Fixup)
    requires forall f :: key(f) == f
    ensures Keys(fixups, key) == multiset(fixups)
  {
    if fixups != [] {
      KeysOfItself(fixups[..|fixups| - 1], key);
      assert fixups == fixups[..|fixups| - 1] + [fixups[|fixups| - 1]];
    }
  }

  lemma FixupsInAnyOrder(first: seq<Fixup>, second: seq<Fixup>, addr: string)
    requires multiset(first) == multiset(second)
    ensures multiset(FixupPatches(first, addr)) == multiset(FixupPatches(second, addr))
  {
    var key := (f: Fixup) => f;
    var part := (f: Fixup) => PatchesOfFixup(f, addr);
    KeysOfItself(first, key);
    KeysOfItself(second, key);
    SumByKeys(first, second, key, part);
    FixupPatchesSum(first, addr, part);
    FixupPatchesSum(second, addr, part);
  }

  lemma {:induction false} LibraryPatchesSum(libraries: seq<Library>, addresses: Addresses, part: Library -> multiset<Patch>)
    requires forall lib :: part(lib) == PatchesOfLibrary(lib, addresses)
    ensures multiset(LibraryPatches(libraries, addresses)) == Sum(libraries, part)
  {
    if libraries != [] { LibraryPatchesSum(libraries[..|libraries| - 1], addresses, part); }
  }

  lemma LibrariesInAnyOrder(first: seq<Library>, second: seq<Library>, addresses: Addresses)
    requires Keys(first, LibraryKey) == Keys(second, LibraryKey)
    ensures multiset(LibraryPatches(first, addresses)) == multiset(LibraryPatches(second, addresses))
  {
    var part := (lib: Library) => PatchesOfLibrary(lib, addresses);
    forall a: Library, b: Library | LibraryKey(a) == LibraryKey(b)
      ensures part(a) == part(b)
    {
      if a.name in addresses { FixupsInAnyOrder(a.fixups, b.fixups, addresses[a.name]); }
    }
    SumByKeys(first, second, LibraryKey, part);
    LibraryPatchesSum(first, addresses, part);
    LibraryPatchesSum(second, addresses, part);
  }

  lemma {:induction false} FilePatchesSum(files: seq<SourceFile>, addresses: Addresses, part: SourceFile -> multiset<Patch>)
    requires forall file :: part(file) == multiset(LibraryPatches(file.libraries, addresses))
    ensures multiset(FilePatches(files, addresses)) == Sum(files, part)
  {
    if files != [] { FilePatchesSum(files[..|files| - 1], addresses, part); }
  }

  lemma FilesInAnyOrder(first: seq<SourceFile>, second: seq<SourceFile>, addresses: Addresses)
    requires Keys(first, FileKey) == Keys(second, FileKey)
    ensures multiset(FilePatches(first, addresses)) == multiset(FilePatches(second, addresses))
  {
    var part := (file: SourceFile) => multiset(LibraryPatches(file.libraries, addresses));
    forall a: SourceFile, b: SourceFile | FileKey(a) == FileKey(b)
      ensures part(a) == part(b)
    {
      LibrariesInAnyOrder(a.libraries, b.libraries, addresses);
    }
    SumByKeys(first, second, FileKey, part);
    FilePatchesSum(first, addresses, part);
    FilePatchesSum(second, addresses, part);
  }

  /** The files, the libraries in each and the placeholders of those may be listed in any order. */
  lemma LinkInAnyOrder(code: string, first: seq<SourceFile>, second: seq<SourceFile>, addresses: Addresses)
    requires Valid(|code|, FilePatches(first, addresses)) && Keys(first, FileKey) == Keys(second, FileKey)
    ensures Apply(code, FilePatches(first, addresses)) == Apply(code, FilePatches(second, addresses))
  {
    FilesInAnyOrder(first, second, addresses);
    OrderDoesNotMatter(code, FilePatches(first, addresses), FilePatches(second, addresses));
  }

  /** Permuting a list permutes its keys: of files, and of the libraries in a file. */
  lemma {:induction false} PermutedKeys<T, K>(s: seq<T>, t: seq<T>, key: T -> K)
    requires multiset(s) == multiset(t)
    ensures Keys(s, key) == Keys(t, key)
    decreases |s|
  {
    if s == [] {
      assert |multiset(t)| == 0;
    } else {
      var n := |s| - 1;
      assert s[n] in multiset(s);
      var j :| 0 <= j < |t| && t[j] == s[n];
      KeysWithout(s, n, key);
      KeysWithout(t, j, key);
      TakenOut(s, n);
      TakenOut(t, j);
      hide Keys, Without;
      OneLess(multiset(Without(s, n)), multiset(Without(t, j)), s[n]);
      PermutedKeys(Without(s, n), Without(t, j), key);
    }
  }

  lemma TakenOut<T>(s: seq<T>, i: nat)
    requires i < |s|
    ensures multiset(s) == multiset(Without(s, i)) + multiset{s[i]}
    ensures |Without(s, i)| == |s| - 1
  {
    assert s == s[..i] + [s[i]] + s[i + 1..];
  }

  // ---------- Linking in stages ----------

  lemma {:induction false} LibraryPatchesSplit(libraries: seq<Library>, now: Addresses, later: Addresses)
    requires now.Keys !! later.Keys
    ensures multiset(LibraryPatches(libraries, now + later))
            == multiset(LibraryPatches(libraries, now)) + multiset(LibraryPatches(libraries, later))
  {
    if libraries != [] {
      LibraryPatchesSplit(libraries[..|libraries| - 1], now, later);
    }
  }

  lemma {:induction false} FilePatchesSplit(files: seq<SourceFile>, now: Addresses, later: Addresses)
    requires now.Keys !! later.Keys
    ensures multiset(FilePatches(files, now + later))
            == multiset(FilePatches(files, now)) + multiset(FilePatches(files, later))
  {
    if files != [] {
      FilePatchesSplit(files[..|files| - 1], now, later);
      LibraryPatchesSplit(files[|files| - 1].libraries, now, later);
    }
  }

  /** Linking some libraries now and the others later gives the code linked with all of them at once. */
  lemma LinkingInStages(code: string, files: seq<SourceFile>, now: Addresses, later: Addresses)
    requires now.Keys !! later.Keys
    requires Valid(|code|, FilePatches(files, now + later))
    ensures Apply(Apply(code, FilePatches(files, now)), FilePatches(files, later))
            == Apply(code, FilePatches(files, now + later))
  {
    FilePatchesSplit(files, now, later);
    ApplyJoins(code, FilePatches(files, now), FilePatches(files, later));
    OrderDoesNotMatter(code, FilePatches(files, now + later), FilePatches(files, now) + FilePatches(files, later));
  }
}
