/**
 * The subtool catalog of app.js (`SUBTOOLS`): brushes, which draw strokes,
 * and image stickers, which are placed as items, grouped by category, and
 * `findSubtoolById`, which looks a subtool up across all categories.
 */
module Subtools {
  import opened Options

  datatype Subtool =
    | Brush(id: string, title: string, color: string, size: nat)
    | Sticker(id: string, title: string, src: string)

  /** The `type` tag app.js keeps beside the active subtool. */
  datatype SubtoolType = BrushType | ImageType

  function TypeOf(st: Subtool): SubtoolType
  {
    if st.Brush? then BrushType else ImageType
  }

  const Makeup: seq<Subtool> := [
    Brush("lip-red", "Lipstick Red", "rgba(220,20,60,0.6)", 18),
    Brush("lip-pink", "Lipstick Pink", "rgba(255,102,178,0.5)", 16),
    Brush("eyeliner-black", "Eyeliner Black", "rgba(20,20,20,0.95)", 4),
    Brush("blush-rose", "Blush Rose", "rgba(255,20,150,0.18)", 40)
  ]

  const Glasses: seq<Subtool> := [
    Sticker("glasses-black", "Glasses Black", "assets/glasses/glasses-black.png"),
    Sticker("glasses-round", "Glasses Round", "assets/glasses/glasses-round.png"),
    Sticker("glasses-aviator", "Aviator", "assets/glasses/glasses-cat.png")
  ]

  const Jewelry: seq<Subtool> := [
    Sticker("earring-hoop", "Earring Hoop", "assets/jewelry/earring-hoop.png"),
    Sticker("earring-stud", "Earring Stud", "assets/jewelry/earring-stud.png"),
    Sticker("necklace-gold", "Necklace Gold", "assets/jewelry/necklace-gold.png"),
    Sticker("nose-ring", "Nose Ring", "assets/jewelry/nose-ring.png")
  ]

  /**
   * `SUBTOOLS[category]`: makeup offers brushes, glasses and jewelry offer
   * stickers, and a category without an entry has no subtools.
   */
  function SubtoolsOf(category: string): (r: seq<Subtool>)
    ensures r == [] <==> category != "makeup" && category != "glasses" && category != "jewelry"
    ensures forall i :: 0 <= i < |r| ==> (r[i].Brush? <==> category == "makeup")
  {
    if category == "makeup" then Makeup
    else if category == "glasses" then Glasses
    else if category == "jewelry" then Jewelry
    else []
  }

  /** `Object.values(SUBTOOLS).flat()`, in declaration order. */
  const AllSubtools: seq<Subtool> := Makeup + Glasses + Jewelry

  /** `Array.prototype.find` by id: the first subtool in `tools` with that id. */
  function FindIn(tools: seq<Subtool>, id: string): (r: Option<Subtool>)
    ensures r.Some? ==> r.value.id == id && r.value in tools
    ensures r.Some? ==> exists k :: 0 <= k < |tools| && tools[k] == r.value &&
                                   forall j :: 0 <= j < k ==> tools[j].id != id
    ensures r.None? <==> forall i :: 0 <= i < |tools| ==> tools[i].id != id
  {
    if tools == [] then None
    else if tools[0].id == id then Some(tools[0])
    else
      assert forall i :: 1 <= i < |tools| ==> tools[i] == tools[1..][i - 1];
      FindIn(tools[1..], id)
  }

  /**
   * `findSubtoolById` over a catalog (`Object.values(SUBTOOLS).flat()`): no id
   * (null or the empty string) finds nothing; otherwise the first subtool of
   * the catalog with that id, if any.
   */
  function FindSubtoolById(catalog: seq<Subtool>, id: Option<string>): (r: Option<Subtool>)
    ensures r.Some? ==> id == Some(r.value.id) && r.value in catalog
    ensures r.Some? ==> exists k :: 0 <= k < |catalog| && catalog[k] == r.value &&
                                   forall j :: 0 <= j < k ==> catalog[j].id != id.value
    ensures (id == None || id == Some("")) ==> r == None
    ensures id.Some? && id.value != "" ==>
              (r.None? <==> forall i :: 0 <= i < |catalog| ==> catalog[i].id != id.value)
  {
    if id == None || id.value == "" then None else FindIn(catalog, id.value)
  }

  /** Distinct subtools of a catalog have distinct ids. */
  predicate UniqueSubtoolIds(tools: seq<Subtool>)
  {
    forall i, j :: 0 <= i < j < |tools| ==> tools[i].id != tools[j].id
  }

  /** In a catalog with distinct ids, looking up a subtool's own id finds that subtool. */
  lemma {:induction false} FindOwnId(tools: seq<Subtool>, k: nat)
    requires UniqueSubtoolIds(tools) && k < |tools|
    ensures FindIn(tools, tools[k].id) == Some(tools[k])
  {
    if k > 0 {
      assert tools[k] == tools[1..][k - 1];
      FindOwnId(tools[1..], k - 1);
    }
  }

  /** The catalog of app.js has distinct ids. */
  lemma AppCatalogIdsUnique()
    ensures UniqueSubtoolIds(AllSubtools)
  {
  }

  /** Every category's subtools are in the catalog, and none has an empty id. */
  lemma OfferedInCatalog(category: string, st: Subtool)
    requires st in SubtoolsOf(category)
    ensures st in AllSubtools && st.id != ""
  {
  }

  /** In a catalog with distinct ids, looking up a member's id finds that member. */
  lemma FindMember(tools: seq<Subtool>, st: Subtool)
    requires UniqueSubtoolIds(tools) && st in tools
    ensures FindIn(tools, st.id) == Some(st)
  {
    var k :| 0 <= k < |tools| && tools[k] == st;
    FindOwnId(tools, k);
  }

  /**
   * Every subtool that a category offers is found again by its own id, so the
   * subtool picked from the chips is the one pointer-down acts with.
   */
  lemma PickedSubtoolIsFound(category: string, st: Subtool)
    requires st in SubtoolsOf(category)
    ensures st in AllSubtools && FindSubtoolById(AllSubtools, Some(st.id)) == Some(st)
  {
    AppCatalogIdsUnique();
    OfferedInCatalog(category, st);
    FindMember(AllSubtools, st);
  }
}
