/** How init_buddy divides the memory behind the kernel image between the page array and the pages. */
module BootSizing {
  import opened Dyadic
  import opened Bits
  import opened Kernel

  const STRUCT_PAGE: nat := 32  // sizeof(struct page)
  const PHYS_MEM_END: nat := 0x3F000000

  function AvailStart(imgEnd: nat): nat {
    RoundUp(imgEnd, PAGE_SIZE)
  }

  /** First physical address behind the page array: where allocatable memory starts. */
  function FreeStart(imgEnd: nat): nat
    requires AvailStart(imgEnd) <= PHYS_MEM_END
  {
    var npages := (PHYS_MEM_END - AvailStart(imgEnd)) / (PAGE_SIZE + STRUCT_PAGE);
    RoundUp(AvailStart(imgEnd) + npages * STRUCT_PAGE, PAGE_SIZE)
  }

  lemma Pow2Page()
    ensures Pow2(12) == PAGE_SIZE && Pow2(10) == 1024 && Pow2(22) == 1024 * PAGE_SIZE
  {
    Shift4(0);
    Shift4(4);
    Shift4(8);
    Shift4(12);
    Shift4(16);
  }

  lemma RoundUpPage(x: nat)
    requires x <= PHYS_MEM_END
    ensures var r := RoundUp(x, PAGE_SIZE); r % PAGE_SIZE == 0 && x <= r < x + PAGE_SIZE
  {
    Pow2Page();
    RoundUpIsCeiling(x, 12);
  }

  /** floor(4096 m / 4128) = floor(128 m / 129). */
  lemma ArrayPages(m: nat)
    ensures (m * PAGE_SIZE) / (PAGE_SIZE + STRUCT_PAGE) == 128 * m / 129
  {
    var q, r := 128 * m / 129, 128 * m % 129;
    assert m * 4096 == 4128 * q + 32 * r;
  }

  lemma CeilPages(s: nat, n: nat, r: nat)
    requires s % PAGE_SIZE == 0 && r % PAGE_SIZE == 0 && s + 32 * n <= r < s + 32 * n + PAGE_SIZE
    ensures r == s + (n + 127) / 128 * PAGE_SIZE
  {
    var x, y := s / PAGE_SIZE, r / PAGE_SIZE;
    assert s == x * PAGE_SIZE && r == y * PAGE_SIZE;
    assert n <= (y - x) * 128 < n + 128;
  }

  /** The sizing in whole pages: with m pages available, the array gets ceil(floor(128m/129)/128). */
  lemma SizingInPages(imgEnd: nat, m: nat)
    requires imgEnd <= PHYS_MEM_END && PHYS_MEM_END - AvailStart(imgEnd) == m * PAGE_SIZE
    ensures imgEnd <= AvailStart(imgEnd) <= PHYS_MEM_END
    ensures FreeStart(imgEnd) == AvailStart(imgEnd) + (128 * m / 129 + 127) / 128 * PAGE_SIZE
  {
    RoundUpPage(imgEnd);
    hide RoundUp;
    var s := AvailStart(imgEnd);
    var n := (PHYS_MEM_END - s) / (PAGE_SIZE + STRUCT_PAGE);
    ArrayPages(m);
    RoundUpPage(s + n * STRUCT_PAGE);
    CeilPages(s, n, FreeStart(imgEnd));
  }

  /** p pages for the array leave m - p pages, whose descriptors need (m - p) * 32 bytes. */
  lemma FitsArithmetic(m: nat, p: nat)
    requires p == (128 * m / 129 + 127) / 128
    ensures p <= m && ((m - p) * STRUCT_PAGE <= p * PAGE_SIZE <==> m % 129 != 1)
  {
    var a, b := m / 129, m % 129;
    assert m == 129 * a + b;
    if b == 0 {
      assert 128 * m / 129 == 128 * a;
    } else {
      assert 128 * m / 129 == 128 * a + b - 1;
      assert p == a + (if b == 1 then 0 else 1);
    }
  }

  /** How many pages lie between the image and the end of memory. */
  function AvailPages(imgEnd: nat): nat
    requires AvailStart(imgEnd) <= PHYS_MEM_END
  {
    (PHYS_MEM_END - AvailStart(imgEnd)) / PAGE_SIZE
  }

  /** page_num */
  function PageNum(imgEnd: nat): nat
    requires AvailStart(imgEnd) <= PHYS_MEM_END && FreeStart(imgEnd) <= PHYS_MEM_END
  {
    (PHYS_MEM_END - FreeStart(imgEnd)) / PAGE_SIZE
  }

  lemma AvailIsWholePages(imgEnd: nat)
    requires imgEnd <= PHYS_MEM_END && AvailStart(imgEnd) <= PHYS_MEM_END
    ensures PHYS_MEM_END - AvailStart(imgEnd) == AvailPages(imgEnd) * PAGE_SIZE
  {
    RoundUpPage(imgEnd);
    hide RoundUp;
    var s := AvailStart(imgEnd) / PAGE_SIZE;
    DivModUnique(PHYS_MEM_END - AvailStart(imgEnd), PAGE_SIZE, PHYS_MEM_END / PAGE_SIZE - s, 0);
  }

  /** The page array stays below the first allocatable page exactly when the number of available
      pages is not one more than a multiple of 129. */
  lemma ArrayFitsIff(imgEnd: nat)
    requires imgEnd <= PHYS_MEM_END && AvailStart(imgEnd) <= PHYS_MEM_END
    ensures AvailStart(imgEnd) <= FreeStart(imgEnd) <= PHYS_MEM_END
    ensures PHYS_MEM_END - FreeStart(imgEnd) == PageNum(imgEnd) * PAGE_SIZE
    ensures PageNum(imgEnd) * STRUCT_PAGE <= FreeStart(imgEnd) - AvailStart(imgEnd) <==> AvailPages(imgEnd) % 129 != 1
  {
    var m := AvailPages(imgEnd);
    AvailIsWholePages(imgEnd);
    SizingInPages(imgEnd, m);
    hide AvailStart, FreeStart, AvailPages;
    var p := (128 * m / 129 + 127) / 128;
    FitsArithmetic(m, p);
    DivModUnique(PHYS_MEM_END - FreeStart(imgEnd), PAGE_SIZE, m - p, 0);
  }

  /** The image ends init_buddy works for: the region contains a 4 MB boundary (populate_page has no other way
      to start), and the page array fits below it. */
  predicate Bootable(imgEnd: nat) {
    && imgEnd <= PHYS_MEM_END && AvailStart(imgEnd) <= PHYS_MEM_END
    && FreeStart(imgEnd) + 1024 * PAGE_SIZE <= PHYS_MEM_END
    && AvailPages(imgEnd) % 129 != 1
  }

  /** An image end that meets everything but the last condition: 192 KB loaded at 0x80000. The last
      descriptor of the page array then lies in the first allocatable page. */
  lemma ArrayOverlapExample()
    ensures var imgEnd := 0xB0000;
      && AvailStart(imgEnd) == imgEnd && AvailPages(imgEnd) == 257872
      && imgEnd <= FreeStart(imgEnd) && FreeStart(imgEnd) + 1024 * PAGE_SIZE <= PHYS_MEM_END
      && PageNum(imgEnd) * STRUCT_PAGE > FreeStart(imgEnd) - imgEnd
  {
    hide RoundUp, FreeStart;
    var imgEnd := 0xB0000;
    RoundUpPage(imgEnd);
    ArrayFitsIff(imgEnd);
    SizingInPages(imgEnd, 257872);
  }

  // ---------- the same in kernel virtual addresses ----------

  /** start_addr, the first page it stands for, and where the page array begins and ends. */
  function RegionStart(imgEnd: nat): nat
    requires AvailStart(imgEnd) <= PHYS_MEM_END
  {
    KBASE + FreeStart(imgEnd)
  }

  function FirstPage(imgEnd: nat): nat
    requires AvailStart(imgEnd) <= PHYS_MEM_END
  {
    RegionStart(imgEnd) / PAGE_SIZE
  }

  function ArrayStart(imgEnd: nat): nat { KBASE + AvailStart(imgEnd) }

  function ArrayEnd(imgEnd: nat): nat
    requires AvailStart(imgEnd) <= PHYS_MEM_END && FreeStart(imgEnd) <= PHYS_MEM_END
  {
    ArrayStart(imgEnd) + PageNum(imgEnd) * STRUCT_PAGE
  }

  /** Image, page array and region follow each other without overlap, and the region ends at the end of memory. */
  lemma Layout(imgEnd: nat)
    requires Bootable(imgEnd)
    ensures KBASE + imgEnd <= ArrayStart(imgEnd) <= ArrayEnd(imgEnd) <= RegionStart(imgEnd)
    ensures RegionStart(imgEnd) == FirstPage(imgEnd) * PAGE_SIZE
    ensures KPAGES <= FirstPage(imgEnd)
    ensures FirstPage(imgEnd) + PageNum(imgEnd) == (KBASE + PHYS_MEM_END) / PAGE_SIZE
  {
    hide RoundUp, FreeStart;
    ArrayFitsIff(imgEnd);
    RoundUpPage(imgEnd);
    WholePagesToEnd(FreeStart(imgEnd), PageNum(imgEnd));
  }

  lemma WholePagesToEnd(f: nat, n: nat)
    requires PHYS_MEM_END - f == n * PAGE_SIZE
    ensures var e := (KBASE + PHYS_MEM_END) / PAGE_SIZE;
      (KBASE + f) / PAGE_SIZE == e - n && KBASE + f == (e - n) * PAGE_SIZE && KPAGES <= e - n
  {
    DivModUnique(KBASE + f, PAGE_SIZE, (KBASE + PHYS_MEM_END) / PAGE_SIZE - n, 0);
  }
}
