/** Keyboard input turned into a movement direction. Each of the four
    movement actions is held when its bound key or its arrow key is held;
    the engine's keyboard resource is replaced by the set of held keys. */
module Input {
  import opened Vectors

  /** The keys that matter here; every other key is `Other`. */
  datatype KeyCode = W | A | S | D | Up | Down | Left | Right | Other(code: nat)

  /** The rebindable keys for the four movement actions. */
  datatype InputBindings = InputBindings(up: KeyCode, down: KeyCode, left: KeyCode, right: KeyCode)

  /** The bindings the game starts with: W, S, A, D. */
  const DefaultBindings: InputBindings := InputBindings(W, S, A, D)

  datatype Action = MoveUp | MoveDown | MoveLeft | MoveRight

  /** The key an action is bound to. */
  function Bound(b: InputBindings, action: Action): KeyCode {
    match action
    case MoveUp => b.up
    case MoveDown => b.down
    case MoveLeft => b.left
    case MoveRight => b.right
  }

  /** The arrow key that always performs an action, whatever the bindings. */
  function Arrow(action: Action): KeyCode {
    match action
    case MoveUp => Up
    case MoveDown => Down
    case MoveLeft => Left
    case MoveRight => Right
  }

  predicate Held(b: InputBindings, pressed: set<KeyCode>, action: Action) {
    Bound(b, action) in pressed || Arrow(action) in pressed
  }

  /** One axis of the direction, from the action that moves along it and
      the one that moves against it: opposite actions cancel. */
  function Axis(positive: bool, negative: bool): real {
    if positive == negative then 0.0 else if positive then 1.0 else -1.0
  }

  /** The direction the held keys ask for. Starting from zero, up adds one
      to y, down subtracts one, left subtracts one from x and right adds
      one; the sum is returned without normalization. */
  function GetDirection(b: InputBindings, pressed: set<KeyCode>): (r: Vec3)
    ensures r == Vec3(Axis(Held(b, pressed, MoveRight), Held(b, pressed, MoveLeft)),
                      Axis(Held(b, pressed, MoveUp), Held(b, pressed, MoveDown)),
                      0.0)
    ensures (r.x == -1.0 || r.x == 0.0 || r.x == 1.0) && (r.y == -1.0 || r.y == 0.0 || r.y == 1.0) && r.z == 0.0
    ensures Held(b, pressed, MoveUp) && Held(b, pressed, MoveDown) ==> r.y == 0.0
    ensures Held(b, pressed, MoveLeft) && Held(b, pressed, MoveRight) ==> r.x == 0.0
  {
    var d0 := Zero;
    var d1 := if Held(b, pressed, MoveUp) then d0.(y := d0.y + 1.0) else d0;
    var d2 := if Held(b, pressed, MoveDown) then d1.(y := d1.y - 1.0) else d1;
    var d3 := if Held(b, pressed, MoveLeft) then d2.(x := d2.x - 1.0) else d2;
    var d4 := if Held(b, pressed, MoveRight) then d3.(x := d3.x + 1.0) else d3;
    d4
  }

  /** The direction depends on the held keys only through which actions
      are held. */
  lemma DirectionDependsOnActions(b: InputBindings, p: set<KeyCode>, q: set<KeyCode>)
    requires forall action :: Held(b, p, action) == Held(b, q, action)
    ensures GetDirection(b, p) == GetDirection(b, q)
  {
    assert Held(b, p, MoveUp) == Held(b, q, MoveUp);
    assert Held(b, p, MoveDown) == Held(b, q, MoveDown);
    assert Held(b, p, MoveLeft) == Held(b, q, MoveLeft);
    assert Held(b, p, MoveRight) == Held(b, q, MoveRight);
  }

  /** The bound keys followed by the arrow keys, in action order. */
  function Keys(b: InputBindings): seq<KeyCode> {
    [b.up, b.down, b.left, b.right, Up, Down, Left, Right]
  }

  function Index(action: Action): (i: nat)
    ensures i < 4
  {
    match action
    case MoveUp => 0
    case MoveDown => 1
    case MoveLeft => 2
    case MoveRight => 3
  }

  /** The four bound keys and the four arrow keys are eight different keys. */
  predicate Distinct(b: InputBindings) {
    forall i, j :: 0 <= i < j < |Keys(b)| ==> Keys(b)[i] != Keys(b)[j]
  }

  lemma DefaultBindingsDistinct()
    ensures Distinct(DefaultBindings)
  {
  }

  /** With distinct keys, pressing an action's bound key, its arrow key, or
      both, adds the same thing: each axis ORs the two keys, so an alias
      pressed twice over still counts once. */
  lemma AliasInterchangeable(b: InputBindings, pressed: set<KeyCode>, action: Action)
    requires Distinct(b)
    ensures GetDirection(b, pressed + {Bound(b, action)}) == GetDirection(b, pressed + {Arrow(action)})
    ensures GetDirection(b, pressed + {Bound(b, action), Arrow(action)}) == GetDirection(b, pressed + {Arrow(action)})
  {
    var p1 := pressed + {Bound(b, action)};
    var p2 := pressed + {Arrow(action)};
    var p3 := pressed + {Bound(b, action), Arrow(action)};
    forall other: Action
      ensures Held(b, p1, other) == Held(b, p2, other) == Held(b, p3, other)
    {
      if other != action {
        var i, j := Index(other), Index(action);
        assert Keys(b)[i] == Bound(b, other) && Keys(b)[4 + i] == Arrow(other);
        assert Keys(b)[j] == Bound(b, action) && Keys(b)[4 + j] == Arrow(action);
      }
    }
    DirectionDependsOnActions(b, p1, p2);
    DirectionDependsOnActions(b, p3, p2);
  }

  /** No movement key held gives the zero vector. */
  lemma NoKeysNoDirection(b: InputBindings, pressed: set<KeyCode>)
    requires forall action :: !Held(b, pressed, action)
    ensures GetDirection(b, pressed) == Zero
  {
    assert !Held(b, pressed, MoveUp) && !Held(b, pressed, MoveDown);
    assert !Held(b, pressed, MoveLeft) && !Held(b, pressed, MoveRight);
  }

  /** One when an axis moves: exactly one of its two actions is held. */
  function Moving(positive: bool, negative: bool): real {
    if positive != negative then 1.0 else 0.0
  }

  /** The squared length counts the axes that move: a diagonal is not
      normalized and has squared length two. */
  lemma DirectionLengthSquared(b: InputBindings, pressed: set<KeyCode>)
    ensures Dot(GetDirection(b, pressed), GetDirection(b, pressed))
            == Moving(Held(b, pressed, MoveRight), Held(b, pressed, MoveLeft))
             + Moving(Held(b, pressed, MoveUp), Held(b, pressed, MoveDown))
  {
    AxisSquares(b, pressed);
  }

  /** A diagonal is the longest direction: its squared length, two, bounds
      every direction's. */
  lemma DirectionLengthBound(b: InputBindings, pressed: set<KeyCode>)
    ensures Dot(GetDirection(b, pressed), GetDirection(b, pressed)) <= 2.0
  {
    DirectionLengthSquared(b, pressed);
    MovingBound(Held(b, pressed, MoveRight), Held(b, pressed, MoveLeft));
    MovingBound(Held(b, pressed, MoveUp), Held(b, pressed, MoveDown));
  }

  lemma MovingBound(positive: bool, negative: bool)
    ensures 0.0 <= Moving(positive, negative) <= 1.0
  {
  }

  /** Each component squared is one when its axis moves and zero otherwise.
      The case analysis over the held actions is done here, on the
      components alone. */
  lemma AxisSquares(b: InputBindings, pressed: set<KeyCode>)
    ensures GetDirection(b, pressed).x * GetDirection(b, pressed).x
            == Moving(Held(b, pressed, MoveRight), Held(b, pressed, MoveLeft))
    ensures GetDirection(b, pressed).y * GetDirection(b, pressed).y
            == Moving(Held(b, pressed, MoveUp), Held(b, pressed, MoveDown))
  {
  }
}
