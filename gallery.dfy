/** The photo gallery: eight fixed items in three categories and a row of filter buttons. */
module Gallery {
  import opened Collections

  datatype GalleryItem = GalleryItem(id: nat, category: string, title: string, description: string)

  const GalleryItems: seq<GalleryItem> := [
    GalleryItem(1, "akademik", "Pembelajaran Interaktif", "Kelas modern dengan teknologi digital"),
    GalleryItem(2, "akademik", "Kajian Agama", "Pembinaan akhlaq dan spiritual"),
    GalleryItem(3, "ekstrakurikuler", "Olahraga", "Pembinaan fisik dan tim work"),
    GalleryItem(4, "akademik", "Laboratorium Sains", "Eksperimen dan penelitian"),
    GalleryItem(5, "kegiatan", "Seni Budaya", "Pentas seni dan pertunjukan"),
    GalleryItem(6, "akademik", "Teknologi", "Lab komputer dan coding"),
    GalleryItem(7, "akademik", "Perpustakaan", "Pusat literasi dan penelitian"),
    GalleryItem(8, "kegiatan", "Wisuda", "Perayaan kelulusan siswa")
  ]

  const ItemCategories: seq<string> := ["akademik", "ekstrakurikuler", "kegiatan"]

  /** The filter buttons: "all" and then one per category. */
  const FilterButtons: seq<string> := ["all"] + ItemCategories

  /** `filteredItems`: every item under "all", otherwise the items of that category in order. */
  function FilteredItems(items: seq<GalleryItem>, activeFilter: string): (r: seq<GalleryItem>)
    ensures activeFilter == "all" ==> r == items
    ensures activeFilter != "all" ==>
              forall x :: x in r <==> x in items && x.category == activeFilter
    ensures SubsequenceOf(r, items)
  {
    if activeFilter == "all" then
      assert SubsequenceOf(items, items) by {
        PrefixIsSubsequence(items, |items|);
        assert Prefix(items, |items|) == items;
      }
      items
    else
      FilterIsSubsequence(items, (x: GalleryItem) => x.category == activeFilter);
      Filter(items, (x: GalleryItem) => x.category == activeFilter)
  }

  /** Items whose categories are three distinct values split into the three filtered views. */
  lemma CategoriesPartition(items: seq<GalleryItem>, a: string, b: string, c: string)
    requires a != b && b != c && a != c && a != "all" && b != "all" && c != "all"
    requires forall x :: x in items ==> x.category == a || x.category == b || x.category == c
    ensures |FilteredItems(items, a)| + |FilteredItems(items, b)| + |FilteredItems(items, c)| == |items|
  {
    FilterSplits3(items, (x: GalleryItem) => x.category == a, (x: GalleryItem) => x.category == b,
                  (x: GalleryItem) => x.category == c);
  }

  /** The three category buttons split the gallery: every item belongs to one of them, no item
      is shown under two of them and none is missing from all three. */
  lemma GalleryIsPartitioned()
    ensures forall x :: x in GalleryItems ==> x.category in FilterButtons[1..]
    ensures |FilteredItems(GalleryItems, FilterButtons[1])| + |FilteredItems(GalleryItems, FilterButtons[2])|
            + |FilteredItems(GalleryItems, FilterButtons[3])| == |GalleryItems| == 8
  {
    ButtonsPartition(GalleryItems, FilterButtons);
  }

  /** Category buttons after "all" that are distinct and cover every item split the items. */
  lemma ButtonsPartition(items: seq<GalleryItem>, buttons: seq<string>)
    requires buttons == ["all", "akademik", "ekstrakurikuler", "kegiatan"]
    requires forall x :: x in items ==> x.category in buttons[1..]
    ensures |FilteredItems(items, buttons[1])| + |FilteredItems(items, buttons[2])|
            + |FilteredItems(items, buttons[3])| == |items|
  {
    assert forall x :: x in items ==>
             x.category == buttons[1] || x.category == buttons[2] || x.category == buttons[3];
    CategoriesPartition(items, buttons[1], buttons[2], buttons[3]);
  }

  /** The component's state: the active filter button. */
  class GallerySection {
    var activeFilter: string

    constructor ()
      ensures activeFilter == "all"
    {
      activeFilter := "all";
    }

    method SetFilter(button: string)
      modifies this`activeFilter
      ensures activeFilter == button
    {
      activeFilter := button;
    }

    function Shown(): (r: seq<GalleryItem>)
      reads this
      ensures activeFilter == "all" ==> r == GalleryItems
      ensures activeFilter != "all" ==>
                forall x :: x in r <==> x in GalleryItems && x.category == activeFilter
      ensures SubsequenceOf(r, GalleryItems)
    {
      FilteredItems(GalleryItems, activeFilter)
    }
  }
}
