/** The state of the item search page (`ItemSearchApp` in script.js): the item
    catalog, the current search result, the page state and the acquired map.
    The drop-down values and the search box are passed to each operation. */
module ItemSearch {
  import opened Wrappers
  import opened Text
  import opened Seqs
  import opened Paging
  import opened ItemRecords

  /** Items shown per page. */
  const ItemsPerPage := 20

  class ItemSearchApp {
    var items: seq<Item>
    var filteredItems: seq<Item>
    var currentPage: int
    var totalPages: int
    var acquiredItems: map<string, bool>
    var crewData: Option<seq<Crew>>

    /** The app after `init`: the data has loaded, every item is listed and
        `displayItems` has counted the pages (page 1 of 1 for an empty
        catalog, which it leaves alone). */
    constructor(loadedItems: seq<Item>, loadedCrew: Option<seq<Crew>>, savedAcquired: map<string, bool>)
      ensures items == loadedItems && filteredItems == loadedItems
      ensures currentPage == 1
      ensures totalPages == if |loadedItems| > 0 then PageCount(|loadedItems|, ItemsPerPage) else 1
      ensures acquiredItems == savedAcquired && crewData == loadedCrew
    {
      items := loadedItems;
      filteredItems := loadedItems;
      currentPage := 1;
      totalPages := 1;
      acquiredItems := savedAcquired;
      crewData := loadedCrew;
      new;
      var _ := ShowFirstPage();
    }

    /** `calculatePagination`: the page count of the result, and the current
        page moved into range. */
    method CalculatePagination()
      modifies this`currentPage, this`totalPages
      ensures totalPages == PageCount(|filteredItems|, ItemsPerPage)
      ensures currentPage == ClampPage(old(currentPage), totalPages)
      ensures currentPage >= 1 && (|filteredItems| > 0 ==> currentPage <= totalPages)
    {
      totalPages := PageCount(|filteredItems|, ItemsPerPage);
      if currentPage > totalPages && totalPages > 0 {
        currentPage := totalPages;
      }
      if currentPage < 1 {
        currentPage := 1;
      }
    }

    /** `displayItems`: an empty result shows nothing and leaves the page state
        alone; otherwise the page state is recomputed and the current page's
        slice is shown. */
    method DisplayItems() returns (page: seq<Item>)
      modifies this`currentPage, this`totalPages
      ensures |filteredItems| == 0 ==>
        page == [] && currentPage == old(currentPage) && totalPages == old(totalPages)
      ensures |filteredItems| > 0 ==>
        && totalPages == PageCount(|filteredItems|, ItemsPerPage)
        && currentPage == ClampPage(old(currentPage), totalPages)
        && 1 <= currentPage <= totalPages
        && page == PageSlice(filteredItems, currentPage, ItemsPerPage)
      ensures |page| <= ItemsPerPage
    {
      if |filteredItems| == 0 {
        return [];
      }
      CalculatePagination();
      page := PageSlice(filteredItems, currentPage, ItemsPerPage);
    }

    /** `goToPage`: a page number outside [1, totalPages] is ignored (None, no
        change); otherwise that page becomes current and is shown. */
    method GoToPage(p: int) returns (shown: Option<seq<Item>>)
      modifies this`currentPage, this`totalPages
      ensures !(1 <= p <= old(totalPages)) ==>
        shown == None && currentPage == old(currentPage) && totalPages == old(totalPages)
      ensures 1 <= p <= old(totalPages) && |filteredItems| == 0 ==>
        shown == Some([]) && currentPage == p && totalPages == old(totalPages)
      ensures 1 <= p <= old(totalPages) && |filteredItems| > 0 ==>
        && totalPages == PageCount(|filteredItems|, ItemsPerPage)
        && currentPage == ClampPage(p, totalPages)
        && shown == Some(PageSlice(filteredItems, currentPage, ItemsPerPage))
      ensures 1 <= p <= old(totalPages) == PageCount(|filteredItems|, ItemsPerPage) ==> currentPage == p
    {
      if 1 <= p <= totalPages {
        currentPage := p;
        var page := DisplayItems();
        shown := Some(page);
      } else {
        shown := None;
      }
    }

    /** `sortItemsByEffect`: reorders the result in place. */
    method SortItemsByEffect()
      modifies this`filteredItems
      ensures filteredItems == EffectSorted(old(filteredItems))
      ensures multiset(filteredItems) == multiset(old(filteredItems))
    {
      filteredItems := EffectSorted(filteredItems);
    }

    /** `performSearch`: the items meeting every criterion, in catalog order,
        sorted by effect; the first page is current and shown. The page count
        is only recomputed for a non-empty result. */
    method PerformSearch(searchValue: string, sel: Selections, lower: CaseMap) returns (page: seq<Item>)
      modifies this`filteredItems, this`currentPage, this`totalPages
      ensures filteredItems == EffectSorted(SearchResult(items, SearchTerm(searchValue, lower), sel, acquiredItems, lower))
      ensures currentPage == 1
      ensures totalPages == if |filteredItems| > 0 then PageCount(|filteredItems|, ItemsPerPage) else old(totalPages)
      ensures page == PageSlice(filteredItems, 1, ItemsPerPage)
    {
      filteredItems := SearchResult(items, SearchTerm(searchValue, lower), sel, acquiredItems, lower);
      SortItemsByEffect();
      page := ShowFirstPage();
    }

    /** The tail of `performSearch`: page 1 becomes current and is shown. */
    method ShowFirstPage() returns (page: seq<Item>)
      modifies this`currentPage, this`totalPages
      ensures currentPage == 1
      ensures totalPages == if |filteredItems| > 0 then PageCount(|filteredItems|, ItemsPerPage) else old(totalPages)
      ensures page == PageSlice(filteredItems, 1, ItemsPerPage)
    {
      currentPage := 1;
      page := DisplayItems();
      if |filteredItems| > 0 {
        ClampIdempotent(1, totalPages);
      }
    }

    /** `toggleAcquiredItem`: flips the key in the acquired map, then searches
        again with the current criteria. */
    method ToggleAcquiredItem(key: string, searchValue: string, sel: Selections, lower: CaseMap)
      returns (page: seq<Item>)
      modifies this`acquiredItems, this`filteredItems, this`currentPage, this`totalPages
      ensures acquiredItems == Toggled(old(acquiredItems), key)
      ensures filteredItems == EffectSorted(SearchResult(items, SearchTerm(searchValue, lower), sel, acquiredItems, lower))
      ensures currentPage == 1
      ensures totalPages == if |filteredItems| > 0 then PageCount(|filteredItems|, ItemsPerPage) else old(totalPages)
      ensures page == PageSlice(filteredItems, 1, ItemsPerPage)
    {
      if key in acquiredItems && acquiredItems[key] {
        acquiredItems := acquiredItems - {key};
      } else {
        acquiredItems := acquiredItems[key := true];
      }
      assert acquiredItems == Toggled(old(acquiredItems), key);
      page := PerformSearch(searchValue, sel, lower);
    }

    /** `updateStats`: catalog size, number of acquired keys, progress
        percentage and result size. */
    method UpdateStats() returns (total: nat, acquiredCount: nat, progress: int, shown: nat)
      ensures total == |items| && acquiredCount == |acquiredItems.Keys| && shown == |filteredItems|
      ensures total == 0 ==> progress == 0
      ensures total > 0 ==> 2 * progress * total - total <= 200 * acquiredCount < 2 * progress * total + total
      ensures acquiredCount <= total ==> 0 <= progress <= 100
    {
      total := |items|;
      acquiredCount := |acquiredItems.Keys|;
      progress := Percent(acquiredCount, total);
      shown := |filteredItems|;
    }

    /** A change of a drop-down other than the position: the position is
        fitted to the type, the character group and the main character are
        coupled (keeping the choice the user just made), then the search runs
        with the adjusted selections. */
    method HandleFilterChange(changed: ChangedFilter, searchValue: string, sel: Selections, lower: CaseMap)
      returns (synced: Selections, page: seq<Item>)
      modifies this`filteredItems, this`currentPage, this`totalPages
      ensures (synced.group, synced.mainCharacter) == SyncSelections(changed, sel.group, sel.mainCharacter)
      ensures synced.position == PositionSelectionFor(items, sel.kind, sel.position)
      ensures synced.kind == sel.kind && synced.region == sel.region && synced.acquired == sel.acquired
      ensures filteredItems == EffectSorted(SearchResult(items, SearchTerm(searchValue, lower), synced, acquiredItems, lower))
      ensures currentPage == 1
      ensures totalPages == if |filteredItems| > 0 then PageCount(|filteredItems|, ItemsPerPage) else old(totalPages)
      ensures page == PageSlice(filteredItems, 1, ItemsPerPage)
    {
      var coupled := SyncSelections(changed, sel.group, sel.mainCharacter);
      synced := sel.(position := PositionSelectionFor(items, sel.kind, sel.position),
                     group := coupled.0, mainCharacter := coupled.1);
      page := PerformSearch(searchValue, synced, lower);
    }

    /** `performCrewSearch`: the companions matching the term and the selected
        main character; nothing when the companion data is missing. */
    method PerformCrewSearch(searchValue: string, character: string, lower: CaseMap)
      returns (found: Option<seq<Crew>>)
      ensures found.None? <==> crewData.None?
      ensures found.Some? ==> found.value == Filter(crewData.value, c => CrewMatches(c, SearchTerm(searchValue, lower), character, lower))
      ensures found.Some? ==> IsSubsequence(found.value, crewData.value)
      ensures found.Some? ==> forall c :: c in found.value <==>
        c in crewData.value && CrewMatches(c, SearchTerm(searchValue, lower), character, lower)
    {
      if crewData.None? {
        return None;
      }
      var term := SearchTerm(searchValue, lower);
      FilterSubsequence(crewData.value, c => CrewMatches(c, term, character, lower));
      found := Some(Filter(crewData.value, c => CrewMatches(c, term, character, lower)));
    }
  }
}
