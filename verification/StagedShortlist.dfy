/** Which staged files the bounded review of isopropyl/dbx.py can be counted on to assess, in terms of their paths. */
module StagedShortlist {
  import opened PeHeader
  import opened StagedDbx

  /** The string tests, as Python defines them. */
  lemma Affixes(s: string, t: string)
    ensures EndsWith(s, t) <==> exists front: string :: s == front + t
    ensures StartsWith(s, t) <==> t <= s
  {
    if EndsWith(s, t) {
      assert s == s[..|s| - |t|] + t;
    }
  }

  /** A removable-media boot loader: any `efi/boot/boot*.efi` at the root, in any case. */
  predicate IsBootLoader(fold: string -> string, f: StagedFile) {
    && IsEfi(fold, f) && |f.parts| == 3
    && fold(f.parts[0]) == "efi" && fold(f.parts[1]) == "boot" && StartsWith(fold(f.parts[2]), "boot")
  }

  /** One of the named boot managers, in any directory. */
  predicate IsBootManager(fold: string -> string, f: StagedFile) {
    && f.parts != []
    && var name := fold(f.parts[|f.parts| - 1]);
       name == "bootmgfw.efi" || name == "cdboot.efi" || name == "cdboot_noprompt.efi"
  }

  lemma ManagersAreEfi(fold: string -> string, f: StagedFile)
    requires IsBootManager(fold, f)
    ensures IsEfi(fold, f)
  {
    var name := fold(f.parts[|f.parts| - 1]);
    assert "bootmgfw.efi"[8..] == "cdboot.efi"[6..] == "cdboot_noprompt.efi"[15..] == ".efi";
  }

  lemma PriorityOf(fold: string -> string, normalize: string -> string, f: StagedFile)
    requires IsEfi(fold, f)
    ensures CandidateFor(fold, normalize, f).file == f
    ensures CandidateFor(fold, normalize, f).priority ==
      if IsBootLoader(fold, f) then 0 else if IsBootManager(fold, f) then 1 else 2
  {
    var lowered := Each(fold, f.parts);
    assert |lowered| == 3 ==> lowered[..2] == [fold(f.parts[0]), fold(f.parts[1])];
  }

  /**
   The order of the inventory, by paths: nothing but boot loaders comes before a boot loader, and nothing but loaders
   and managers before a manager.
   */
  lemma LoadersThenManagers(fold: string -> string, normalize: string -> string, files: seq<StagedFile>, i: nat, j: nat)
    requires i < j < |Rank(CandidatesOf(fold, normalize, files))|
    ensures
      var (earlier, later) := (Rank(CandidatesOf(fold, normalize, files))[i].file,
                               Rank(CandidatesOf(fold, normalize, files))[j].file);
      && (IsBootLoader(fold, later) ==> IsBootLoader(fold, earlier))
      && (IsBootManager(fold, later) ==> IsBootLoader(fold, earlier) || IsBootManager(fold, earlier))
  {
    hide CandidateFor, IsBootLoader, IsBootManager, IsEfi, Rank, CandidatesOf;
    var ranked := Rank(CandidatesOf(fold, normalize, files));
    RankedFile(fold, normalize, files, i);
    RankedFile(fold, normalize, files, j);
    assert !RanksBefore(ranked[j], ranked[i]);
  }

  /** A ranked candidate is the one made for its file. */
  lemma RankedFile(fold: string -> string, normalize: string -> string, files: seq<StagedFile>, i: nat)
    requires i < |Rank(CandidatesOf(fold, normalize, files))|
    ensures
      var c := Rank(CandidatesOf(fold, normalize, files))[i];
      && c.file in files && IsEfi(fold, c.file) && c == CandidateFor(fold, normalize, c.file)
      && c.priority == if IsBootLoader(fold, c.file) then 0 else if IsBootManager(fold, c.file) then 1 else 2
  {
    hide CandidateFor, IsBootLoader, IsBootManager, IsEfi, Rank, CandidatesOf;
    var candidates := CandidatesOf(fold, normalize, files);
    var c := Rank(candidates)[i];
    SameMembers(Rank(candidates), candidates);
    assert c in Rank(candidates);
    MadeForItsFile(fold, normalize, files, c);
    PriorityOf(fold, normalize, c.file);
  }

  lemma {:induction false} MadeForItsFile(
    fold: string -> string, normalize: string -> string, files: seq<StagedFile>, c: Candidate)
    requires c in CandidatesOf(fold, normalize, files)
    ensures c.file in files && IsEfi(fold, c.file) && c == CandidateFor(fold, normalize, c.file)
  {
    hide CandidateFor, IsEfi;
    var front, last := files[..|files| - 1], files[|files| - 1];
    if c in CandidatesOf(fold, normalize, front) {
      MadeForItsFile(fold, normalize, front, c);
    } else {
      PriorityOf(fold, normalize, last);
    }
  }

  /** The boot loaders among the staged files. */
  function BootLoaders(fold: string -> string, files: seq<StagedFile>): seq<StagedFile> {
    if files == [] then []
    else
      var last := files[|files| - 1];
      BootLoaders(fold, files[..|files| - 1]) + if IsBootLoader(fold, last) then [last] else []
  }

  /** How many of some candidates were made for boot loaders. */
  function LoaderCount(fold: string -> string, s: seq<Candidate>): nat {
    if s == [] then 0
    else LoaderCount(fold, s[..|s| - 1]) + if IsBootLoader(fold, s[|s| - 1].file) then 1 else 0
  }

  lemma {:induction false} LoadersCounted(fold: string -> string, normalize: string -> string, files: seq<StagedFile>)
    ensures LoaderCount(fold, CandidatesOf(fold, normalize, files)) == |BootLoaders(fold, files)|
  {
    hide CandidateFor;
    if files != [] {
      var front, last := files[..|files| - 1], files[|files| - 1];
      LoadersCounted(fold, normalize, front);
      if IsEfi(fold, last) {
        PriorityOf(fold, normalize, last);
        var before := CandidatesOf(fold, normalize, front);
        assert (before + [CandidateFor(fold, normalize, last)])[..|before|] == before;
      } else {
        assert CandidatesOf(fold, normalize, front) + [] == CandidatesOf(fold, normalize, front);
      }
    }
  }

  lemma {:induction false} InsertedCount(fold: string -> string, s: seq<Candidate>, x: Candidate)
    requires Ranked(s)
    ensures LoaderCount(fold, InsertRanked(s, x)) == LoaderCount(fold, s) + if IsBootLoader(fold, x.file) then 1 else 0
  {
    hide IsBootLoader, RanksBefore;
    if s == [] {
      assert [x][..0] == [];
    } else {
      var front, last := s[..|s| - 1], s[|s| - 1];
      if RanksBefore(x, last) {
        InsertedCount(fold, front, x);
        var r := InsertRanked(front, x);
        assert (r + [last])[..|r|] == r;
      } else {
        assert (s + [x])[..|s|] == s;
      }
    }
  }

  /** Sorting loses no boot loader and invents none. */
  lemma {:induction false} RankedCount(fold: string -> string, s: seq<Candidate>)
    ensures LoaderCount(fold, Rank(s)) == LoaderCount(fold, s)
  {
    hide IsBootLoader, Ranked;
    if s != [] {
      RankedCount(fold, s[..|s| - 1]);
      InsertedCount(fold, Rank(s[..|s| - 1]), s[|s| - 1]);
    }
  }

  lemma {:induction false} CountedBefore(fold: string -> string, s: seq<Candidate>, k: nat)
    requires k <= |s| && forall i :: 0 <= i < k ==> IsBootLoader(fold, s[i].file)
    ensures k <= LoaderCount(fold, s)
    decreases |s|
  {
    if k < |s| {
      CountedBefore(fold, s[..|s| - 1], k);
    } else if k > 0 {
      CountedBefore(fold, s[..k - 1], k - 1);
    }
  }

  /**
   With at most 64 boot loaders staged, each of them is in the review, whatever else was staged: it is on the
   shortlist, and its verdict is among the payloads unless it turned out not to be a UEFI image.
   */
  lemma BootLoadersAreReviewed(
    fold: string -> string, normalize: string -> string, files: seq<StagedFile>, f: StagedFile)
    requires |BootLoaders(fold, files)| <= MAX_STAGED_DBX_CANDIDATES && f in files && IsBootLoader(fold, f)
    ensures CandidateFor(fold, normalize, f) in Shortlist(Rank(CandidatesOf(fold, normalize, files)))
    ensures !f.inspection.NotUefi? ==> PayloadOf(f) in Review(CandidatesOf(fold, normalize, files)).payloads
  {
    hide *;
    LoaderIsEfi(fold, f);
    var j := RankOf(fold, normalize, files, f);
    LoaderFits(fold, normalize, files, j);
    ShortlistedIsReviewed(CandidatesOf(fold, normalize, files), j);
    PriorityOf(fold, normalize, f);
  }

  /** Every `.efi` file has a place in the ranking. */
  lemma RankOf(fold: string -> string, normalize: string -> string, files: seq<StagedFile>, f: StagedFile)
    returns (j: nat)
    requires f in files && IsEfi(fold, f)
    ensures j < |Rank(CandidatesOf(fold, normalize, files))|
    ensures Rank(CandidatesOf(fold, normalize, files))[j] == CandidateFor(fold, normalize, f)
    ensures CandidateFor(fold, normalize, f).file == f
  {
    hide *;
    var candidates := CandidatesOf(fold, normalize, files);
    CandidateFiles(fold, normalize, files, candidates);
    SameMembers(Rank(candidates), candidates);
    PriorityOf(fold, normalize, f);
    var c := CandidateFor(fold, normalize, f);
    assert c in Rank(candidates);
    j :| 0 <= j < |Rank(candidates)| && Rank(candidates)[j] == c;
  }

  /** Boot loaders take the first places. */
  lemma LoaderFits(fold: string -> string, normalize: string -> string, files: seq<StagedFile>, j: nat)
    requires j < |Rank(CandidatesOf(fold, normalize, files))|
    requires IsBootLoader(fold, Rank(CandidatesOf(fold, normalize, files))[j].file)
    ensures j < |BootLoaders(fold, files)|
  {
    hide *;
    var ranked := Rank(CandidatesOf(fold, normalize, files));
    forall i | 0 <= i < j + 1 ensures IsBootLoader(fold, ranked[i].file) {
      if i < j {
        LoadersThenManagers(fold, normalize, files, i, j);
      }
    }
    CountedBefore(fold, ranked, j + 1);
    RankedCount(fold, CandidatesOf(fold, normalize, files));
    LoadersCounted(fold, normalize, files);
  }

  lemma ShortlistedIsReviewed(candidates: seq<Candidate>, j: nat)
    requires j < |Rank(candidates)| && j < MAX_STAGED_DBX_CANDIDATES
    ensures Rank(candidates)[j] in Shortlist(Rank(candidates))
    ensures
      var f := Rank(candidates)[j].file;
      !f.inspection.NotUefi? ==> PayloadOf(f) in Review(candidates).payloads
  {
    hide Rank, PayloadsOf, IssuesOf;
    var selected := Shortlist(Rank(candidates));
    assert selected[j] == Rank(candidates)[j];
    if !selected[j].file.inspection.NotUefi? {
      PayloadIsThere(selected, j);
    }
  }

  lemma LoaderIsEfi(fold: string -> string, f: StagedFile)
    requires IsBootLoader(fold, f)
    ensures IsEfi(fold, f)
  {
  }

  lemma {:induction false} PayloadIsThere(selected: seq<Candidate>, j: nat)
    requires j < |selected| && !selected[j].file.inspection.NotUefi?
    ensures PayloadOf(selected[j].file) in PayloadsOf(selected)
  {
    if j < |selected| - 1 {
      PayloadIsThere(selected[..|selected| - 1], j);
    }
  }
  // ----- concrete files

  function Lowered(s: string): string {
    seq(|s|, i requires 0 <= i < |s| => if 'A' <= s[i] <= 'Z' then s[i] + 32 as char else s[i])
  }

  function Staged(path: string, parts: seq<string>): StagedFile {
    StagedFile(path, parts, NotUefi)
  }

  const SHELL: StagedFile := Staged("tools/a.efi", ["tools", "a.efi"])
  const MANAGER: StagedFile := Staged("EFI/BOOT/CDBOOT.EFI", ["EFI", "BOOT", "CDBOOT.EFI"])
  const LOADER_64: StagedFile := Staged("EFI/BOOT/BOOTX64.EFI", ["EFI", "BOOT", "BOOTX64.EFI"])
  const LOADER_32: StagedFile := Staged("efi/boot/bootia32.efi", ["efi", "boot", "bootia32.efi"])
  const README_FILE: StagedFile := Staged("efi/boot/boot.txt", ["efi", "boot", "boot.txt"])

  function Same(s: string): string { s }

  function Made(f: StagedFile): Candidate
    requires IsEfi(Lowered, f)
  {
    CandidateFor(Lowered, Same, f)
  }

  lemma SampleNames()
    ensures Lowered("CDBOOT.EFI") == "cdboot.efi" && Lowered("BOOTX64.EFI") == "bootx64.efi"
    ensures Lowered("bootia32.efi") == "bootia32.efi" && Lowered("a.efi") == "a.efi"
    ensures Lowered("boot.txt") == "boot.txt"
    ensures Lowered("EFI") == Lowered("efi") == "efi" && Lowered("BOOT") == Lowered("boot") == "boot"
    ensures Lowered("tools") == "tools"
  {
  }

  lemma SampleKinds()
    ensures IsEfi(Lowered, SHELL) && !IsBootLoader(Lowered, SHELL) && !IsBootManager(Lowered, SHELL)
    ensures IsBootManager(Lowered, MANAGER) && !IsBootLoader(Lowered, MANAGER) && IsEfi(Lowered, MANAGER)
    ensures IsBootLoader(Lowered, LOADER_64) && IsBootLoader(Lowered, LOADER_32)
    ensures IsEfi(Lowered, LOADER_64) && IsEfi(Lowered, LOADER_32) && !IsEfi(Lowered, README_FILE)
  {
    hide Lowered;
    SampleNames();
    assert "cdboot.efi"[6..] == ".efi" && "bootx64.efi"[7..] == "bootia32.efi"[8..] == "a.efi"[1..] == ".efi";
    assert "bootx64.efi"[..4] == "bootia32.efi"[..4] == "boot" && "cdboot.efi"[..4] == "cdbo";
    assert "boot.txt"[4..] == ".txt";
  }

  lemma KeysOf(f: StagedFile)
    requires IsEfi(Lowered, f)
    ensures Made(f).key == Each(Lowered, f.parts)
  {
    assert Each(Same, f.parts) == f.parts;
  }

  lemma SampleKeys()
    requires IsEfi(Lowered, LOADER_32) && IsEfi(Lowered, LOADER_64)
    ensures KeyLess(Made(LOADER_32).key, Made(LOADER_64).key)
  {
    hide Lowered, CandidateFor, KeyLess, TextLess, IsEfi;
    SampleNames();
    KeysOf(LOADER_32);
    KeysOf(LOADER_64);
    assert Made(LOADER_32).key == ["efi", "boot"] + ["bootia32.efi"];
    assert Made(LOADER_64).key == ["efi", "boot"] + ["bootx64.efi"];
    LoaderNames();
    LastLess(["efi", "boot"], "bootia32.efi", "bootx64.efi");
  }

  lemma LoaderNames()
    ensures TextLess("bootia32.efi", "bootx64.efi")
  {
    SuffixLess("boot", "ia32.efi", "x64.efi");
    assert "boot" + "ia32.efi" == "bootia32.efi" && "boot" + "x64.efi" == "bootx64.efi";
  }

  lemma {:induction false} LastLess(front: seq<string>, a: string, b: string)
    requires TextLess(a, b)
    ensures KeyLess(front + [a], front + [b])
  {
    hide TextLess;
    if front == [] {
      TextOrder(a, b);
      assert front + [a] == [a] && front + [b] == [b];
    } else {
      LastLess(front[1..], a, b);
      assert (front + [a])[1..] == front[1..] + [a] && (front + [b])[1..] == front[1..] + [b];
    }
  }

  lemma {:induction false} SuffixLess(prefix: string, a: string, b: string)
    requires TextLess(a, b)
    ensures TextLess(prefix + a, prefix + b)
  {
    if prefix == "" {
      assert prefix + a == a && prefix + b == b;
    } else {
      SuffixLess(prefix[1..], a, b);
      assert (prefix + a)[1..] == prefix[1..] + a && (prefix + b)[1..] == prefix[1..] + b;
    }
  }

  lemma SampleCandidates()
    requires IsEfi(Lowered, SHELL) && IsEfi(Lowered, MANAGER) && IsEfi(Lowered, LOADER_64) && IsEfi(Lowered, LOADER_32)
    requires !IsEfi(Lowered, README_FILE)
    ensures CandidatesOf(Lowered, Same, [SHELL, MANAGER, README_FILE, LOADER_64, LOADER_32])
         == [Made(SHELL), Made(MANAGER), Made(LOADER_64), Made(LOADER_32)]
  {
    hide *;
    var (one, two, three, four) := ([SHELL], [SHELL, MANAGER], [SHELL, MANAGER, README_FILE],
                                    [SHELL, MANAGER, README_FILE, LOADER_64]);
    NoFiles();
    MoreFiles([], SHELL);
    assert [] + [SHELL] == one;
    MoreFiles(one, MANAGER);
    assert one + [MANAGER] == two;
    MoreFiles(two, README_FILE);
    assert two + [README_FILE] == three;
    MoreFiles(three, LOADER_64);
    assert three + [LOADER_64] == four;
    MoreFiles(four, LOADER_32);
    assert four + [LOADER_32] == [SHELL, MANAGER, README_FILE, LOADER_64, LOADER_32];
  }

  lemma NoFiles()
    ensures CandidatesOf(Lowered, Same, []) == [] && Rank([]) == []
  {
  }

  lemma MoreFiles(files: seq<StagedFile>, f: StagedFile)
    ensures CandidatesOf(Lowered, Same, files + [f]) ==
            CandidatesOf(Lowered, Same, files) + if IsEfi(Lowered, f) then [Made(f)] else []
  {
    hide Lowered, IsEfi, CandidateFor;
    assert (files + [f])[..|files|] == files;
  }

  /** A candidate that ranks before all the others goes to the front. */
  lemma RankMore(s: seq<Candidate>, x: Candidate)
    requires forall i :: 0 <= i < |s| ==> RanksBefore(x, s[i])
    ensures Rank(s + [x]) == [x] + Rank(s)
  {
    hide RanksBefore, Ranked;
    assert (s + [x])[..|s|] == s;
    SameMembers(Rank(s), s);
    InsertFirst(Rank(s), x);
  }

  lemma {:induction false} InsertFirst(s: seq<Candidate>, x: Candidate)
    requires Ranked(s) && forall y :: y in s ==> RanksBefore(x, y)
    ensures InsertRanked(s, x) == [x] + s
  {
    hide RanksBefore;
    if s != [] {
      InsertFirst(s[..|s| - 1], x);
    }
  }

  /** Five staged files, and the order in which the four candidates among them are reviewed. */
  lemma SampleOrder()
    ensures IsEfi(Lowered, SHELL) && IsEfi(Lowered, MANAGER) && IsEfi(Lowered, LOADER_64) && IsEfi(Lowered, LOADER_32)
    ensures
      Rank(CandidatesOf(Lowered, Same, [SHELL, MANAGER, README_FILE, LOADER_64, LOADER_32]))
      == [Made(LOADER_32), Made(LOADER_64), Made(MANAGER), Made(SHELL)]
  {
    hide Lowered, IsEfi, IsBootLoader, IsBootManager, CandidateFor, KeyLess;
    SampleKinds();
    SampleKeys();
    PriorityOf(Lowered, Same, SHELL);
    PriorityOf(Lowered, Same, MANAGER);
    PriorityOf(Lowered, Same, LOADER_64);
    PriorityOf(Lowered, Same, LOADER_32);
    SampleCandidates();
    assert Made(SHELL).priority == 2 && Made(MANAGER).priority == 1;
    assert Made(LOADER_64).priority == 0 && Made(LOADER_32).priority == 0;
    RankFour(Made(SHELL), Made(MANAGER), Made(LOADER_64), Made(LOADER_32));
  }

  lemma RankFour(shell: Candidate, manager: Candidate, x64: Candidate, ia32: Candidate)
    requires RanksBefore(manager, shell) && RanksBefore(x64, shell) && RanksBefore(x64, manager)
    requires RanksBefore(ia32, shell) && RanksBefore(ia32, manager) && RanksBefore(ia32, x64)
    ensures Rank([shell, manager, x64, ia32]) == [ia32, x64, manager, shell]
  {
    hide *;
    RankThree(shell, manager, x64);
    var three := [shell, manager, x64];
    RankMore(three, ia32);
    assert three + [ia32] == [shell, manager, x64, ia32];
    assert [ia32] + [x64, manager, shell] == [ia32, x64, manager, shell];
  }

  lemma RankThree(shell: Candidate, manager: Candidate, x64: Candidate)
    requires RanksBefore(manager, shell) && RanksBefore(x64, shell) && RanksBefore(x64, manager)
    ensures Rank([shell, manager, x64]) == [x64, manager, shell]
  {
    hide *;
    RankTwo(shell, manager);
    RankMore([shell, manager], x64);
    assert [shell, manager] + [x64] == [shell, manager, x64];
    assert [x64] + [manager, shell] == [x64, manager, shell];
  }

  lemma RankTwo(shell: Candidate, manager: Candidate)
    requires RanksBefore(manager, shell)
    ensures Rank([shell, manager]) == [manager, shell]
  {
    hide *;
    NoFiles();
    RankMore([], shell);
    assert [] + [shell] == [shell] && [shell] + [] == [shell];
    RankMore([shell], manager);
    assert [shell] + [manager] == [shell, manager] && [manager] + [shell] == [manager, shell];
  }
}
