/** What each person card shows (`renderTree`, the card loop over
    `positions`): the placeholder for an id without a record, the name and
    photo fallbacks and the life-span label. */
module Cards {
  import opened Records
  import opened Layout

  const DefaultPhoto := "Photos/Default.jpg"

  /** JavaScript truthiness of an optional string: present and not empty. */
  predicate Present(o: Option<string>)
  {
    o.Some? && o.value != ""
  }

  /** `o || fallback`: the text is empty only when both are, and it is
      always one of the two. */
  function OrElse(o: Option<string>, fallback: string): (r: string)
    ensures r == "" <==> !Present(o) && fallback == ""
    ensures r == fallback || (o.Some? && r == o.value)
  {
    if Present(o) then o.value else fallback
  }

  /** Line 144: birth, the separator when either date is there, death. */
  function LifeLabel(birth: Option<string>, death: Option<string>): string
  {
    OrElse(birth, "") + (if Present(birth) || Present(death) then " - " else "") + OrElse(death, "")
  }

  /** The data of one card: its id, top-left corner and three texts. */
  datatype Card = Card(id: Id, origin: Pos, name: string, photo: string, life: string)

  /** Line 122: the record drawn for an id, or a placeholder named after the
      id with the default photo. */
  function NodeFor(nm: map<Id, Person>, id: Id): Person
  {
    if id in nm then nm[id] else Person(id, Some(id), None, None, Some(DefaultPhoto), None, [])
  }

  /** Lines 122-148: the card of a positioned id. */
  function CardFor(nm: map<Id, Person>, id: Id, p: Pos): Card
  {
    var node := NodeFor(nm, id);
    Card(id, p, OrElse(node.name, ""), OrElse(node.photo, DefaultPhoto), LifeLabel(node.birth, node.death))
  }

  /** One card per positioned id. */
  function AllCards(nm: map<Id, Person>, positions: map<Id, Pos>): map<Id, Card>
  {
    map id | id in positions :: CardFor(nm, id, positions[id])
  }

  /** The life label is empty exactly when neither date is present. */
  lemma LifeLabelEmpty(birth: Option<string>, death: Option<string>)
    ensures LifeLabel(birth, death) == "" <==> !Present(birth) && !Present(death)
  {
    if Present(birth) || Present(death) {
      assert |LifeLabel(birth, death)| >= 3;
    }
  }

  /** With both dates the label is `birth - death`; with one it keeps the
      separator on that date's side. */
  lemma LifeLabelShape(birth: Option<string>, death: Option<string>)
    ensures Present(birth) && Present(death) ==> LifeLabel(birth, death) == birth.value + " - " + death.value
    ensures Present(birth) && !Present(death) ==> LifeLabel(birth, death) == birth.value + " - "
    ensures !Present(birth) && Present(death) ==> LifeLabel(birth, death) == " - " + death.value
  {
  }

  /** Every positioned id has a card at its position; an id without a record
      gets the placeholder: its id as name, the default photo, no dates. */
  lemma CardsCoverPositions(nm: map<Id, Person>, positions: map<Id, Pos>)
    ensures AllCards(nm, positions).Keys == positions.Keys
    ensures forall id :: id in positions ==> AllCards(nm, positions)[id].origin == positions[id] && AllCards(nm, positions)[id].id == id
    ensures forall id :: id in positions && id !in nm ==>
      var c := AllCards(nm, positions)[id];
      c.name == id && c.photo == DefaultPhoto && c.life == ""
  {
  }

  /** A card never shows an empty photo reference: it shows the record's
      photo when there is one and the default photo otherwise. It shows the
      record's name when it has one and the empty string otherwise. */
  lemma CardFallbacks(nm: map<Id, Person>, id: Id, p: Pos)
    ensures CardFor(nm, id, p).photo != ""
    ensures CardFor(nm, id, p).photo == (if id in nm && Present(nm[id].photo) then nm[id].photo.value else DefaultPhoto)
    ensures id in nm ==> CardFor(nm, id, p).name == (if Present(nm[id].name) then nm[id].name.value else "")
    ensures id in nm ==> CardFor(nm, id, p).life == LifeLabel(nm[id].birth, nm[id].death)
  {
  }
}
