/** Automatic session colors: the least-used one, first in the preference order. */
module AutoColor {
  import opened Base
  import opened Argv

  const ORDER: seq<AnsiColor> := [White, Cyan, Magenta, Blue, Yellow, Green, Red, Black]

  /** The color field of a stored session: absent, cleared, or a color. */
  type Stored = Option<Option<AnsiColor>>

  function Uses(sessions: seq<Stored>, c: AnsiColor): nat {
    if sessions == [] then 0
    else Uses(sessions[..|sessions| - 1], c) + if sessions[|sessions| - 1] == Some(Some(c)) then 1 else 0
  }

  /** The first of the least-used colors among the first k of the order. */
  function LeastUsed(sessions: seq<Stored>, k: nat): (i: nat)
    requires 0 < k <= 8
    ensures i < k
    ensures forall j :: 0 <= j < k ==> Uses(sessions, ORDER[i]) <= Uses(sessions, ORDER[j])
    ensures forall j :: 0 <= j < i ==> Uses(sessions, ORDER[i]) < Uses(sessions, ORDER[j])
  {
    if k == 1 then 0
    else
      var i := LeastUsed(sessions, k - 1);
      if Uses(sessions, ORDER[k - 1]) < Uses(sessions, ORDER[i]) then k - 1 else i
  }

  /** From any store the choice is the first color, in the preference order, that no other is used less than. */
  method ChooseAutoSessionColor(sessions: seq<Stored>) returns (color: AnsiColor)
    ensures color == ORDER[LeastUsed(sessions, 8)]
    ensures forall c: AnsiColor :: Uses(sessions, color) <= Uses(sessions, c)
  {
    var counts := new nat[8](_ => 0);
    for n := 0 to |sessions|
      invariant forall j :: 0 <= j < 8 ==> counts[j] == Uses(sessions[..n], ORDER[j])
    {
      assert sessions[..n + 1][..n] == sessions[..n];
      if sessions[n].Some? && sessions[n].value.Some? {
        var idx := Position(sessions[n].value.value);
        counts[idx] := counts[idx] + 1;
      }
    }
    assert sessions[..|sessions|] == sessions;
    var selected := 0;
    for idx := 1 to 8
      invariant selected < 8 && selected == LeastUsed(sessions, idx)
    {
      if counts[idx] < counts[selected] { selected := idx; }
    }
    color := ORDER[selected];
    forall c: AnsiColor ensures Uses(sessions, color) <= Uses(sessions, c) { LeastOfAll(sessions, c); }
  }

  lemma LeastOfAll(sessions: seq<Stored>, c: AnsiColor)
    ensures Uses(sessions, ORDER[LeastUsed(sessions, 8)]) <= Uses(sessions, c)
  {
    assert ORDER[Position(c)] == c;
  }

  function Position(c: AnsiColor): (i: nat)
    ensures i < 8 && ORDER[i] == c
    ensures forall j :: 0 <= j < 8 && j != i ==> ORDER[j] != c
  {
    match c
    case White => 0 case Cyan => 1 case Magenta => 2 case Blue => 3
    case Yellow => 4 case Green => 5 case Red => 6 case Black => 7
  }

  /** The store after n auto-colored sessions were created in an empty one. */
  function Created(n: nat): (sessions: seq<Stored>)
    ensures |sessions| == n
  {
    if n == 0 then [] else Created(n - 1) + [Some(Some(ORDER[LeastUsed(Created(n - 1), 8)]))]
  }

  lemma OrderIsDistinct(i: nat, j: nat)
    requires i < 8 && j < 8
    ensures ORDER[i] == ORDER[j] <==> i == j
  {
    var p := Position(ORDER[i]);
  }

  /** How often color j of the order is used after n creations. */
  function Share(n: nat, j: nat): nat { n / 8 + if j < n % 8 then 1 else 0 }

  lemma NoShare(j: nat)
    ensures Share(0, j) == 0
  {
  }

  lemma NextShare(m: nat, j: nat)
    requires j < 8
    ensures Share(m + 1, j) == Share(m, j) + if j == m % 8 then 1 else 0
  {
  }

  lemma NextUses(n: nat, j: nat)
    requires n > 0 && j < 8 && LeastUsed(Created(n - 1), 8) == (n - 1) % 8
    ensures Uses(Created(n), ORDER[j]) == Uses(Created(n - 1), ORDER[j]) + if j == (n - 1) % 8 then 1 else 0
  {
    hide LeastUsed;
    OrderIsDistinct(j, (n - 1) % 8);
    assert Created(n)[..n - 1] == Created(n - 1);
  }

  /** After n such creations the colors are used equally often, the first n mod 8 of the order once more. */
  lemma {:induction false} UsesAfter(n: nat, j: nat)
    requires j < 8
    ensures Uses(Created(n), ORDER[j]) == Share(n, j)
    decreases n, 0
  {
    hide LeastUsed, Share;
    NoShare(j);
    if n > 0 {
      UsesAfter(n - 1, j);
      NextIsNextInOrder(n - 1);
      NextUses(n, j);
      NextShare(n - 1, j);
    }
  }

  /** The next session gets the color n mod 8 of the order. */
  lemma {:induction false} NextIsNextInOrder(n: nat)
    ensures LeastUsed(Created(n), 8) == n % 8
    decreases n, 1
  {
    var i := LeastUsed(Created(n), 8);
    UsesAfter(n, i);
    UsesAfter(n, n % 8);
  }

  /** No color is ever used more than once more than another. */
  lemma UsesStayFair(n: nat, c: AnsiColor, d: AnsiColor)
    ensures Uses(Created(n), c) <= Uses(Created(n), d) + 1
  {
    UsesAfter(n, Position(c));
    UsesAfter(n, Position(d));
  }

  lemma {:induction false} NthColor(n: nat, i: nat)
    requires i < n
    ensures Created(n)[i] == Some(Some([White, Cyan, Magenta, Blue, Yellow, Green, Red, Black][i % 8]))
    decreases n
  {
    NextIsNextInOrder(n - 1);
    if i < n - 1 {
      NthColor(n - 1, i);
    }
  }
}
