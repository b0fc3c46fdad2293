/** The derived values of `src/components/ui/Avatar.jsx`: the colour slot
    and the initials of one avatar, and which avatars a group shows. */
module AvatarView {
  import opened Wrappers
  import opened Seqs
  import opened Text

  const Colors: seq<string> := [
    "bg-blue-500", "bg-green-500", "bg-purple-500", "bg-pink-500",
    "bg-indigo-500", "bg-teal-500", "bg-orange-500", "bg-cyan-500"
  ]

  const DefaultGroupMax: nat := 4

  /** A name is truthy when it is given and not empty. */
  predicate Named(name: Option<string>) {
    name.Some? && name.value != ""
  }

  /** `name ? name.charCodeAt(0) % colors.length : 0`. */
  function ColorIndex(name: Option<string>): (i: nat)
    ensures i < |Colors|
    ensures !Named(name) ==> i == 0
    ensures Named(name) ==> i == name.value[0] as int % 8
  {
    if Named(name) then name.value[0] as int % |Colors| else 0
  }

  /** The colour is decided by the first character alone. */
  lemma ColorFollowsFirstChar(a: string, b: string)
    requires a != "" && b != "" && a[0] == b[0]
    ensures Colors[ColorIndex(Some(a))] == Colors[ColorIndex(Some(b))]
  {
  }

  /** `n => n[0]`: an empty segment yields `undefined`, which `join`
      writes as nothing. */
  function FirstChar(segment: string): (r: string)
    ensures |r| <= 1
    ensures segment != "" ==> r == [segment[0]]
    ensures segment == "" ==> r == ""
  {
    if segment == "" then "" else [segment[0]]
  }

  /** `name.split(' ').map(n => n[0]).join('')`. */
  function Letters(name: string): string {
    Concat(Map(Split(name, ' '), FirstChar))
  }

  /** The initials: the first letters, upper-cased, cut to two; `'?'` for
      a missing or empty name. */
  function Initials(name: Option<string>): (r: string)
    ensures !Named(name) ==> r == "?"
    ensures Named(name) ==> |r| == (if |Letters(name.value)| < 2 then |Letters(name.value)| else 2)
    ensures Named(name) ==> r == ToUpper(Letters(name.value))[..|r|]
  {
    if Named(name) then Take(ToUpper(Letters(name.value)), 2) else "?"
  }

  /** Words separated by one space contribute their letters in order. */
  lemma LettersAppend(a: string, b: string)
    ensures Letters(a + " " + b) == Letters(a) + Letters(b)
  {
    SplitAppend(a, b, ' ');
    MapAppend(Split(a, ' '), Split(b, ' '), FirstChar);
    ConcatAppend(Map(Split(a, ' '), FirstChar), Map(Split(b, ' '), FirstChar));
  }

  /** A single word contributes its first character; an empty segment,
      as between two consecutive spaces, contributes nothing. */
  lemma LettersOfWord(w: string)
    requires ' ' !in w
    ensures Letters(w) == FirstChar(w)
  {
    assert Split(w, ' ') == [w];
    assert Map([w], FirstChar) == [FirstChar(w)];
    assert Concat([FirstChar(w)]) == FirstChar(w) + Concat([]);
  }

  /** So a first and a last name give the two upper-cased first letters. */
  lemma TwoWordInitials(first: string, last: string)
    requires first != "" && last != "" && ' ' !in first && ' ' !in last
    ensures Initials(Some(first + " " + last)) == [UpperChar(first[0]), UpperChar(last[0])]
  {
    LettersAppend(first, last);
    LettersOfWord(first);
    LettersOfWord(last);
    assert Letters(first + " " + last) == [first[0], last[0]];
  }

  /** A leading space is an empty segment, which adds no letter. */
  lemma LeadingSpaceIgnored(b: string)
    ensures Letters(" " + b) == Letters(b)
  {
    assert " " + b == "" + " " + b;
    LettersAppend("", b);
    LettersOfWord("");
  }

  /** So a doubled space changes nothing. */
  lemma DoubleSpaceIgnored(a: string, b: string)
    ensures Letters(a + "  " + b) == Letters(a + " " + b)
  {
    var rest := " " + b;
    assert a + "  " + b == a + " " + rest;
    LettersAppend(a, rest);
    LeadingSpaceIgnored(b);
    LettersAppend(a, b);
  }

  /** What an `AvatarGroup` renders: the avatars shown, and the number on
      the overflow badge when there is one. */
  datatype Group<T> = Group(visible: seq<T>, badge: Option<nat>)

  /** `users.slice(0, max)` and `users.length - max`, the badge shown only
      when that difference is positive. */
  function AvatarGroup<T>(users: seq<T>, max: nat := DefaultGroupMax): (g: Group<T>)
    ensures |g.visible| == if |users| < max then |users| else max
    ensures g.visible == users[..|g.visible|]
    ensures g.badge.Some? <==> |users| > max
    ensures g.badge.Some? ==> g.badge.value == |users| - max
  {
    var remaining := |users| - max;
    Group(Take(users, max), if remaining > 0 then Some(remaining) else None)
  }

  /** Every user is either shown or counted on the badge, exactly once. */
  lemma GroupAccountsForEveryone<T>(users: seq<T>, max: nat)
    ensures |AvatarGroup(users, max).visible| + AvatarGroup(users, max).badge.GetOr(0) == |users|
  {
  }
}
