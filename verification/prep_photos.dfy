/** PrepPhotosPage.jsx: choosing photos from the prepared set. The selection is state
    lifted into the parent; here it is a field of the page, next to the fetched list. */
module PrepPhotos {
  import opened Seqs

  /** `(p) => p !== photo`. */
  function Other(photo: string): string -> bool {
    (p: string) => p != photo
  }

  /** `togglePhotoSelection`: drop every copy of a selected photo, append an unselected one. */
  function Toggle(selected: seq<string>, photo: string): (r: seq<string>)
    ensures photo in r <==> photo !in selected
    ensures forall q :: q != photo ==> (q in r <==> q in selected)
  {
    if photo in selected then
      FilterMember(selected, Other(photo), photo);
      forall q | q != photo ensures q in Filter(selected, Other(photo)) <==> q in selected {
        FilterMember(selected, Other(photo), q);
      }
      Filter(selected, Other(photo))
    else selected + [photo]
  }

  /** Toggling off removes every copy and keeps the rest in order; toggling on appends. */
  lemma ToggleCases(selected: seq<string>, photo: string)
    ensures photo in selected ==> Toggle(selected, photo) == Filter(selected, Other(photo))
    ensures photo !in selected ==> Toggle(selected, photo) == selected + [photo]
    ensures forall i :: 0 <= i < |Toggle(selected, photo)| - 1 ==> Toggle(selected, photo)[i] != photo
  {
    if photo !in selected {
      var r := Toggle(selected, photo);
      assert forall i :: 0 <= i < |r| - 1 ==> r[i] == selected[i];
    }
  }

  /** The other photos keep their order: without `photo`, the selection is the same before
      and after the toggle. */
  lemma ToggleKeepsOthers(selected: seq<string>, photo: string)
    ensures Filter(Toggle(selected, photo), Other(photo)) == Filter(selected, Other(photo))
  {
    if photo in selected {
      FilterAll(Filter(selected, Other(photo)), Other(photo));
    } else {
      FilterSnoc(selected, photo, Other(photo));
    }
  }

  /** Toggling an unselected photo twice restores the selection exactly. */
  lemma ToggleTwice(selected: seq<string>, photo: string)
    requires photo !in selected
    ensures Toggle(Toggle(selected, photo), photo) == selected
  {
    FilterSnoc(selected, photo, Other(photo));
    FilterAll(selected, Other(photo));
  }

  class PrepPhotosPage {
    /** `selectedPrepPhotos`, owned by the parent and set through `setSelectedPrepPhotos`. */
    var selected: seq<string>
    /** `prepPhotos`, the list fetched from the backend. */
    var prepPhotos: seq<string>

    /** Mounting: the fetched list starts empty. */
    constructor(selected: seq<string>)
      ensures this.selected == selected && prepPhotos == []
    {
      this.selected := selected;
      prepPhotos := [];
    }

    /** `setPrepPhotos(res.data)` once the fetch answers. */
    method Fetched(list: seq<string>)
      modifies this
      ensures prepPhotos == list && selected == old(selected)
    {
      prepPhotos := list;
    }

    method TogglePhotoSelection(photo: string)
      modifies this
      ensures selected == Toggle(old(selected), photo)
      ensures prepPhotos == old(prepPhotos)
    {
      if photo in selected {
        selected := Filter(selected, Other(photo));
      } else {
        selected := selected + [photo];
      }
    }

    /** `handleSelectAll`: the selection becomes the fetched list. */
    method HandleSelectAll()
      modifies this
      ensures selected == prepPhotos && prepPhotos == old(prepPhotos)
    {
      selected := prepPhotos;
    }

    /** `handleClearAll`: nothing is selected. */
    method HandleClearAll()
      modifies this
      ensures selected == [] && prepPhotos == old(prepPhotos)
    {
      selected := [];
    }
  }
}
