/** The static facet catalog of the front end and its depth-first lookup. */
module Catalog {
  import opened Wrappers

  /** A facet value; a node with children is a drill-down entry. */
  datatype Node = Node(name: string, children: seq<Node>)

  /** A titled, illustrated group of the multi-select facet. */
  datatype Section = Section(name: string, image: string, items: seq<Node>)

  predicate HasChildren(n: Node) {
    |n.children| > 0
  }

  function Leaf(name: string): Node {
    Node(name, [])
  }

  function Leaves(names: seq<string>): (r: seq<Node>)
    ensures |r| == |names|
    ensures forall i :: 0 <= i < |r| ==> r[i] == Leaf(names[i])
  {
    if |names| == 0 then [] else [Leaf(names[0])] + Leaves(names[1..])
  }

  /** The hierarchical `type_lieu` facet. */
  const TypeLieuItems: seq<Node> := [
    Node("Habitations", [
      Node("Appartement", Leaves(["Appartement moderne", "Appartement classique", "Studio", "Loft"])),
      Node("Maison", Leaves(["Maison individuelle", "Villa", "Maison de ville"])),
      Leaf("Chalet"),
      Leaf("Château")
    ]),
    Node("Bureaux", Leaves(["Bureau individuel", "Open space", "Espace coworking", "Siège social"])),
    Node("Industrie", Leaves(["Entrepôt", "Usine", "Atelier"])),
    Node("Commerce", Leaves(["Boutique", "Restaurant", "Café", "Showroom"])),
    Node("Hôtellerie", Leaves(["Hôtel", "Auberge", "Gîte"])),
    Leaf("Autre")
  ]

  const ArchitectureItems: seq<Node> := Leaves(["Classique", "Moderne", "Industrielle", "Futuriste"])

  const DecorationItems: seq<Node> := Leaves(["Ethnique", "Minimaliste", "Design", "Contemporain"])

  /** The sectioned multi-select `pieces` facet. */
  const PiecesSections: seq<Section> := [
    Section("Pièces intérieures", "interieur.jpg", [
      Leaf("Salon"), Leaf("Cuisine"), Leaf("Chambre"), Leaf("Salle de bain"),
      Node("Bureau", Leaves(["Bureau", "Open space"])),
      Leaf("Salle à manger"), Leaf("Bibliothèque"), Leaf("Cave à vin"), Leaf("Home cinéma"),
      Leaf("Gym"), Leaf("Spa"), Leaf("Dressing"), Leaf("Buanderie"), Leaf("Cellier"),
      Leaf("Garage"), Leaf("Atelier"), Leaf("Salle de jeux"), Leaf("Bureau à domicile"),
      Leaf("Salle de réunion"), Leaf("Hall d'entrée"), Leaf("Couloir"), Leaf("Débarras"),
      Leaf("Chambre d'amis"), Leaf("Suite parentale"), Leaf("Nursery"), Leaf("Chambre d'enfant"),
      Leaf("Salle de bain d'appoint"), Leaf("WC"), Leaf("Mezzanine"), Leaf("Grenier")
    ]),
    Section("Éléments extérieurs", "exterieur.jpg", Leaves([
      "Terrasse", "Jardin", "Piscine", "Balcon", "Cour", "Parking", "Garage extérieur",
      "Abri de jardin", "Serre", "Potager", "Verger", "Allée", "Portail", "Clôture"
    ]))
  ]

  /** Every node of a forest, each parent before its children, siblings in order. */
  function Preorder(items: seq<Node>): seq<Node>
    decreases items
  {
    if |items| == 0 then []
    else [items[0]] + Preorder(items[0].children) + Preorder(items[1..])
  }

  /** The first node of a flat list that carries `value` as its name. */
  function FirstNamed(ns: seq<Node>, value: string): Option<Node>
  {
    if |ns| == 0 then None
    else if ns[0].name == value then Some(ns[0])
    else FirstNamed(ns[1..], value)
  }

  /** `findItemByValue`: depth-first search for a node named `value`. */
  function Find(items: seq<Node>, value: string): Option<Node>
    decreases items
  {
    if |items| == 0 then None
    else if items[0].name == value then Some(items[0])
    else if HasChildren(items[0]) then
      var found := Find(items[0].children, value);
      if found.Some? then found else Find(items[1..], value)
    else Find(items[1..], value)
  }

  lemma {:induction false} FirstNamedAppend(a: seq<Node>, b: seq<Node>, value: string)
    ensures FirstNamed(a + b, value)
         == if FirstNamed(a, value).Some? then FirstNamed(a, value) else FirstNamed(b, value)
    decreases |a|
  {
    if |a| > 0 {
      assert (a + b)[0] == a[0];
      assert (a + b)[1..] == a[1..] + b;
      FirstNamedAppend(a[1..], b, value);
    } else {
      assert a + b == b;
    }
  }

  lemma {:induction false} FirstNamedSpec(ns: seq<Node>, value: string)
    ensures FirstNamed(ns, value).None? <==> forall i :: 0 <= i < |ns| ==> ns[i].name != value
    ensures FirstNamed(ns, value).Some? ==>
      exists k :: 0 <= k < |ns| && ns[k] == FirstNamed(ns, value).value
        && ns[k].name == value && forall i :: 0 <= i < k ==> ns[i].name != value
    decreases |ns|
  {
    if |ns| > 0 && ns[0].name != value {
      FirstNamedSpec(ns[1..], value);
      var r := FirstNamed(ns[1..], value);
      if r.Some? {
        var k :| 0 <= k < |ns[1..]| && ns[1..][k] == r.value
          && ns[1..][k].name == value && forall i :: 0 <= i < k ==> ns[1..][i].name != value;
        assert ns[k + 1] == r.value;
        assert forall i :: 0 <= i < k + 1 ==> ns[i].name != value by {
          forall i | 0 <= i < k + 1 ensures ns[i].name != value {
            if i > 0 { assert ns[i] == ns[1..][i - 1]; }
          }
        }
      } else {
        forall i | 0 <= i < |ns| ensures ns[i].name != value {
          if i > 0 { assert ns[i] == ns[1..][i - 1]; }
        }
      }
    }
  }

  /** The depth-first search finds exactly the first named node of the pre-order listing. */
  lemma {:induction false} FindIsFirstInPreorder(items: seq<Node>, value: string)
    ensures Find(items, value) == FirstNamed(Preorder(items), value)
    decreases items
  {
    if |items| > 0 {
      var head, kids, rest := items[0], items[0].children, items[1..];
      FindIsFirstInPreorder(kids, value);
      FindIsFirstInPreorder(rest, value);
      FirstNamedAppend([head] + Preorder(kids), Preorder(rest), value);
      FirstNamedAppend([head], Preorder(kids), value);
      if !HasChildren(head) {
        assert Preorder(kids) == [];
      }
    }
  }

  /** `findItemByValue` returns the first node in depth-first pre-order named
      `value`, and nothing exactly when no node of the forest has that name. */
  lemma FindSpec(items: seq<Node>, value: string)
    ensures Find(items, value).None? <==>
      forall i :: 0 <= i < |Preorder(items)| ==> Preorder(items)[i].name != value
    ensures Find(items, value).Some? ==>
      exists k :: 0 <= k < |Preorder(items)| && Preorder(items)[k] == Find(items, value).value
        && Find(items, value).value.name == value
        && forall i :: 0 <= i < k ==> Preorder(items)[i].name != value
  {
    FindIsFirstInPreorder(items, value);
    FirstNamedSpec(Preorder(items), value);
  }

  /** "Studio" is found as the childless leaf under Habitations, then Appartement. */
  lemma FindStudio()
    ensures TypeLieuItems[0].name == "Habitations"
    ensures TypeLieuItems[0].children[0].name == "Appartement"
    ensures TypeLieuItems[0].children[0].children[2] == Leaf("Studio")
    ensures Find(TypeLieuItems, "Studio") == Some(Leaf("Studio"))
  {
    var habitations := TypeLieuItems[0];
    var appartement := habitations.children[0];
    assert appartement.children[0].name == "Appartement moderne";
    assert appartement.children[1].name == "Appartement classique";
    assert appartement.children[2] == Leaf("Studio");
    assert Find(appartement.children[2..], "Studio") == Some(Leaf("Studio"));
    assert Find(appartement.children[1..], "Studio") == Some(Leaf("Studio"));
    assert Find(appartement.children, "Studio") == Some(Leaf("Studio"));
    assert Find(habitations.children, "Studio") == Some(Leaf("Studio"));
  }
}
