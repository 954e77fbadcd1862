/** The property post's facet meta fields: their registration schema
    (`register_meta_fields`) and the guarded save rule of the edit screen's
    meta box (`save_meta_fields`). Post meta is a map from meta key to the
    stored string. */
module Meta {
  import opened Wrappers
  import Panels

  /** The fields the meta box saves, in the order it visits them. */
  const MetaFields: seq<string> := ["type_lieu", "architecture", "decoration", "pieces"]

  /** How one meta key is registered for the `property` post type. */
  datatype Registration = Registration(
    postType: string,
    key: string,
    valueType: string,
    single: bool,
    showInRest: bool,
    sanitizeCallback: string)

  /** `register_meta_fields`: the four facet keys, each a single string
      exposed to the REST API and cleaned with `sanitize_text_field`. */
  const Registered: seq<Registration> := [
    Registration("property", "type_lieu", "string", true, true, "sanitize_text_field"),
    Registration("property", "architecture", "string", true, true, "sanitize_text_field"),
    Registration("property", "decoration", "string", true, true, "sanitize_text_field"),
    Registration("property", "pieces", "string", true, true, "sanitize_text_field")
  ]

  /** The posted form of the edit screen. `nonce` is the meta box's nonce
      field, `None` when it was not posted. */
  datatype SaveRequest = SaveRequest(nonce: Option<string>, autosave: bool, post: map<string, string>)

  /** The site routines the rule calls and whose code is not part of this
      model: the nonce check for the meta box's action, the `edit_post`
      capability of the current user for this post, and
      `sanitize_text_field`. */
  datatype Env = Env(verifyNonce: string -> bool, canEdit: bool, sanitize: string -> string)

  /** The three guards: a posted and valid nonce, no autosave, and the
      capability to edit the post. */
  predicate MaySave(req: SaveRequest, env: Env) {
    req.nonce.Some? && env.verifyNonce(req.nonce.value) && !req.autosave && env.canEdit
  }

  /** The meta fields the request posts. */
  function Posted(req: SaveRequest): set<string> {
    set f | f in MetaFields && f in req.post
  }

  /** The meta after the save, stated declaratively: when the guards pass,
      every posted meta field holds its sanitised posted value and every
      other key keeps its value; otherwise nothing changes. */
  function Saved(stored: map<string, string>, req: SaveRequest, env: Env): map<string, string> {
    if MaySave(req, env) then Written(stored, req, env, Posted(req)) else stored
  }

  /** `stored` with each field of `fields` overwritten by its sanitised
      posted value. */
  function Written(stored: map<string, string>, req: SaveRequest, env: Env, fields: set<string>): map<string, string>
    requires forall f :: f in fields ==> f in req.post
  {
    map k | k in stored.Keys + fields :: if k in fields then env.sanitize(req.post[k]) else stored[k]
  }

  /** The posted fields among the first `i` visited. */
  function PostedPrefix(req: SaveRequest, i: nat): set<string>
    requires i <= |MetaFields|
  {
    set f | f in MetaFields[..i] && f in req.post
  }

  /** One visit of the loop extends the written fields by the visited one. */
  lemma WriteStep(stored: map<string, string>, req: SaveRequest, env: Env, i: nat)
    requires i < |MetaFields|
    ensures MetaFields[i] in req.post ==>
      Written(stored, req, env, PostedPrefix(req, i + 1))
        == Written(stored, req, env, PostedPrefix(req, i))[MetaFields[i] := env.sanitize(req.post[MetaFields[i]])]
    ensures MetaFields[i] !in req.post ==>
      Written(stored, req, env, PostedPrefix(req, i + 1)) == Written(stored, req, env, PostedPrefix(req, i))
  {
    assert MetaFields[..i + 1] == MetaFields[..i] + [MetaFields[i]];
    if MetaFields[i] in req.post {
      assert PostedPrefix(req, i + 1) == PostedPrefix(req, i) + {MetaFields[i]};
    } else {
      assert PostedPrefix(req, i + 1) == PostedPrefix(req, i);
    }
  }

  /** `save_meta_fields`: check the guards in order, then visit the four
      fields and write each posted one. */
  method SaveMetaFields(stored: map<string, string>, req: SaveRequest, env: Env) returns (r: map<string, string>)
    ensures r == Saved(stored, req, env)
    ensures req.nonce.None? || !env.verifyNonce(req.nonce.value) ==> r == stored
    ensures req.autosave ==> r == stored
    ensures !env.canEdit ==> r == stored
    ensures MaySave(req, env) ==> r.Keys == stored.Keys + Posted(req)
    ensures forall k :: k in r ==> k in stored || k in MetaFields
    ensures MaySave(req, env) ==>
      forall f :: f in MetaFields && f in req.post ==> r[f] == env.sanitize(req.post[f])
    ensures forall k :: k in stored && !(MaySave(req, env) && k in Posted(req)) ==> k in r && r[k] == stored[k]
  {
    if req.nonce.None? || !env.verifyNonce(req.nonce.value) {
      return stored;
    }
    if req.autosave {
      return stored;
    }
    if !env.canEdit {
      return stored;
    }
    r := stored;
    var i := 0;
    assert PostedPrefix(req, 0) == {};
    assert Written(stored, req, env, {}) == stored;
    while i < |MetaFields|
      invariant 0 <= i <= |MetaFields|
      invariant r == Written(stored, req, env, PostedPrefix(req, i))
    {
      WriteStep(stored, req, env, i);
      if MetaFields[i] in req.post {
        r := r[MetaFields[i] := env.sanitize(req.post[MetaFields[i]])];
      }
      i := i + 1;
    }
    assert MetaFields[..i] == MetaFields;
    assert PostedPrefix(req, i) == Posted(req);
  }

  /** The registered keys are exactly the saved fields and exactly the
      facets the search panels filter on, and every registration is a single
      string with the text sanitiser, visible to the REST API. */
  lemma RegisteredSchema()
    ensures |Registered| == |MetaFields|
    ensures forall i :: 0 <= i < |Registered| ==> Registered[i].key == MetaFields[i]
    ensures forall i :: 0 <= i < |Registered| ==>
      && Registered[i].postType == "property"
      && Registered[i].valueType == "string"
      && Registered[i].single
      && Registered[i].showInRest
      && Registered[i].sanitizeCallback == "sanitize_text_field"
    ensures (set f | f in MetaFields) == Panels.PanelFilters
  {
  }

  /** Saving the same request twice writes the same values: a second save
      changes nothing more. */
  lemma SaveTwice(stored: map<string, string>, req: SaveRequest, env: Env)
    ensures Saved(Saved(stored, req, env), req, env) == Saved(stored, req, env)
  {
    var once := Saved(stored, req, env);
    if MaySave(req, env) {
      var twice := Saved(once, req, env);
      assert twice.Keys == once.Keys;
      assert forall k :: k in twice ==> twice[k] == once[k];
    }
  }
}
