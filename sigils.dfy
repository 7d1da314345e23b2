/**
 The two constant tables of main.js: the sigil that opens an identifier selects its
 node type, and the type selects a palette colour.
 */
module Sigils {
  import opened Values

  datatype NodeType = User | Channel | File | Message

  /** The sigil that stands for each type (the inverse of the type table). */
  function Sigil(t: NodeType): char
  {
    match t
    case User => '@'
    case Channel => '#'
    case File => '&'
    case Message => '%'
  }

  /** The palette colour of each type. */
  function Palette(t: NodeType): string
  {
    match t
    case User => "#7aa456"
    case Channel => "#c65999"
    case File => "#c96d44"
    case Message => "#777acd"
  }

  /**
   The type of an identifier, read off its first character. An empty identifier, or
   one whose first character is not one of the four sigils, has no type (`undefined`).
   */
  function TypeOf(id: string): (t: Option<NodeType>)
    ensures t.Some? ==> |id| > 0 && id[0] == Sigil(t.value)
    ensures t.None? ==> |id| == 0 || id[0] !in {'@', '#', '&', '%'}
  {
    if |id| == 0 then None
    else match id[0]
      case '@' => Some(User)
      case '#' => Some(Channel)
      case '&' => Some(File)
      case '%' => Some(Message)
      case _ => None
  }

  /** `PALETTE[type]`: looking up `undefined` gives `undefined`. */
  function ColorOf(t: Option<NodeType>): Option<string>
  {
    match t
    case None => None
    case Some(ty) => Some(Palette(ty))
  }

  /** Each identifier opened by a type's sigil gets that type, and only those do. */
  lemma TypeOfSigil(id: string, t: NodeType)
    ensures TypeOf(id) == Some(t) <==> |id| > 0 && id[0] == Sigil(t)
  {
  }

  /** The lookup is exhaustive over the four sigils: every other input yields no type and no colour. */
  lemma TypeOfExhaustive(id: string)
    ensures TypeOf(id).Some? <==> |id| > 0 && id[0] in {'@', '#', '&', '%'}
    ensures ColorOf(TypeOf(id)).None? <==> TypeOf(id).None?
  {
  }

  /**
   An identifier is coloured with `t`'s palette colour exactly when it is opened by
   `t`'s sigil: the two tables together send each sigil to one colour and no other.
   */
  lemma ColorOfSigil(id: string, t: NodeType)
    ensures ColorOf(TypeOf(id)) == Some(Palette(t)) <==> |id| > 0 && id[0] == Sigil(t)
  {
    if ColorOf(TypeOf(id)) == Some(Palette(t)) {
      var u := TypeOf(id).value;
      assert Palette(u) == Palette(t);
      if u != t {
        TablesInjective(u, t);
      }
    }
  }

  /** Distinct types have distinct sigils and distinct colours. */
  lemma TablesInjective(t: NodeType, u: NodeType)
    requires t != u
    ensures Sigil(t) != Sigil(u)
    ensures Palette(t) != Palette(u)
  {
  }
}
