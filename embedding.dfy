/** The lazily loaded sentence-embedding model of
    api/src/services/embedding.service.ts. */
module Embedding {
  import opened Js

  const DEFAULT_MODEL: string := "Xenova/all-MiniLM-L6-v2"

  /** A loaded feature-extraction pipeline: text to its pooled, normalised
      vector, or the error the model raised. */
  type Extractor = string -> Result<Vector>

  /** `pipeline('feature-extraction', name)`: the loaded model, or the load
      error. The outcome is taken as a function of the name, so a load that
      failed fails the same way when it is tried again. */
  type Loader = string -> Result<Extractor>

  /** What embedding one text gives when `e` is the model (or the failure to load it). */
  function EmbedWith(e: Result<Extractor>, text: string): (r: Result<Vector>)
    ensures e.Err? ==> r == Err(e.error)
    ensures e.Ok? ==> r == e.value(text)
  {
    match e
    case Err(m) => Err(m)
    case Ok(f) => f(text)
  }

  /** `for (const text of texts) embeddings.push(await embed(text))` with `f` as
      the model: the vectors in order, or the first error, which abandons the rest. */
  function EmbedAll(f: Extractor, texts: seq<string>): Result<seq<Vector>>
  {
    if texts == [] then Ok([])
    else
      match EmbedAll(f, texts[..|texts| - 1])
      case Err(m) => Err(m)
      case Ok(vs) =>
        match f(texts[|texts| - 1])
        case Err(m) => Err(m)
        case Ok(v) => Ok(vs + [v])
  }

  /** The batch as a whole: no text means no call at all, so not even a load
      failure shows; otherwise the batch over the loaded model. */
  function Batch(e: Result<Extractor>, texts: seq<string>): Result<seq<Vector>> {
    if texts == [] then Ok([])
    else match e
      case Err(m) => Err(m)
      case Ok(f) => EmbedAll(f, texts)
  }

  /** A successful batch has one vector per text, in order: `result[i] = embed(texts[i])`. */
  lemma {:induction false} EmbedAllPointwise(f: Extractor, texts: seq<string>)
    requires EmbedAll(f, texts).Ok?
    ensures |EmbedAll(f, texts).value| == |texts|
    ensures forall i | 0 <= i < |texts| :: f(texts[i]) == Ok(EmbedAll(f, texts).value[i])
  {
    if texts != [] {
      var init := texts[..|texts| - 1];
      EmbedAllPointwise(f, init);
      var vs := EmbedAll(f, init).value;
      forall i | 0 <= i < |texts| ensures f(texts[i]) == Ok(EmbedAll(f, texts).value[i]) {
        if i < |init| {
          assert texts[i] == init[i];
        }
      }
    }
  }

  /** The batch succeeds exactly when every text embeds. */
  lemma {:induction false} EmbedAllSucceedsIff(f: Extractor, texts: seq<string>)
    ensures EmbedAll(f, texts).Ok? <==> forall i | 0 <= i < |texts| :: f(texts[i]).Ok?
  {
    if texts != [] {
      var init := texts[..|texts| - 1];
      EmbedAllSucceedsIff(f, init);
      assert forall i | 0 <= i < |init| :: init[i] == texts[i];
    }
  }

  /** No per-item catch: the first text that fails decides the batch's error. */
  lemma {:induction false} EmbedAllFirstError(f: Extractor, texts: seq<string>, k: nat)
    requires k < |texts| && f(texts[k]).Err?
    requires forall j | 0 <= j < k :: f(texts[j]).Ok?
    ensures EmbedAll(f, texts) == Err(f(texts[k]).error)
  {
    var init := texts[..|texts| - 1];
    if k == |texts| - 1 {
      EmbedAllSucceedsIff(f, init);
      assert forall j | 0 <= j < |init| :: init[j] == texts[j];
    } else {
      assert init[k] == texts[k];
      assert forall j | 0 <= j < k :: init[j] == texts[j];
      EmbedAllFirstError(f, init, k);
    }
  }

  /** The embedding service: model name, the loaded extractor and the flag
      saying it was loaded. */
  class EmbeddingService {
    const modelName: string
    var extractor: Option<Extractor>
    var initialized: bool

    /** `initialized` is set exactly when the extractor was stored. */
    ghost predicate Valid()
      reads this
    {
      initialized <==> extractor.Some?
    }

    constructor(modelName: string := DEFAULT_MODEL)
      ensures this.modelName == modelName
      ensures !initialized && extractor == None
      ensures Valid()
    {
      this.modelName := modelName;
      extractor := None;
      initialized := false;
    }

    /** The model the next embedding uses: the stored one, or whatever loading
        it will give. */
    function Model(load: Loader): Result<Extractor>
      reads this
    {
      if initialized && extractor.Some? then Ok(extractor.value) else load(modelName)
    }

    /** `initialize()`: nothing once loaded; otherwise load the model, and only on
        success store it and set the flag; a load error propagates. */
    method Initialize(load: Loader) returns (o: Outcome)
      requires Valid()
      modifies this
      ensures Valid()
      ensures old(initialized) ==> o == Pass && unchanged(this)
      ensures !old(initialized) && load(modelName).Ok? ==>
        o == Pass && initialized && extractor == Some(load(modelName).value)
      ensures !old(initialized) && load(modelName).Err? ==>
        o == Fail(load(modelName).error) && unchanged(this)
      ensures Model(load) == old(Model(load))
    {
      if initialized {
        return Pass;
      }
      match load(modelName)
      case Err(m) =>
        o := Fail(m);
      case Ok(f) =>
        extractor := Some(f);
        initialized := true;
        o := Pass;
    }

    /** `generateEmbedding(text)`: load lazily, then run the model; any error propagates. */
    method GenerateEmbedding(text: string, load: Loader) returns (r: Result<Vector>)
      requires Valid()
      modifies this
      ensures Valid()
      ensures r == EmbedWith(old(Model(load)), text)
      ensures Model(load) == old(Model(load))
      ensures initialized <==> old(initialized) || load(modelName).Ok?
    {
      if !initialized {
        var o := Initialize(load);
        if o.Fail? {
          return Err(o.error);
        }
      }
      r := extractor.value(text);
    }

    /** `generateBatchEmbeddings(texts)`: one call per text, in order. */
    method GenerateBatchEmbeddings(texts: seq<string>, load: Loader) returns (r: Result<seq<Vector>>)
      requires Valid()
      modifies this
      ensures Valid()
      ensures r == Batch(old(Model(load)), texts)
      ensures Model(load) == old(Model(load))
      ensures initialized <==> old(initialized) || (texts != [] && load(modelName).Ok?)
    {
      ghost var model := Model(load);
      var embeddings: seq<Vector> := [];
      for i := 0 to |texts|
        invariant Valid()
        invariant Model(load) == model
        invariant initialized <==> old(initialized) || (i > 0 && load(modelName).Ok?)
        invariant i > 0 ==> model.Ok? && EmbedAll(model.value, texts[..i]) == Ok(embeddings)
        invariant i == 0 ==> embeddings == []
      {
        var e := GenerateEmbedding(texts[i], load);
        if e.Err? {
          BatchStopsAt(model, texts, i, e.error);
          return Err(e.error);
        }
        assert model.Ok?;
        assert EmbedAll(model.value, texts[..i + 1]) == Ok(embeddings + [e.value]) by {
          var t := texts[..i + 1];
          assert t[..|t| - 1] == texts[..i] && t[|t| - 1] == texts[i];
          if i == 0 {
            assert texts[..i] == [];
          }
        }
        embeddings := embeddings + [e.value];
      }
      assert texts[..|texts|] == texts;
      r := Ok(embeddings);
    }
  }

  /** Once the batch fails at text i, later texts cannot change the outcome. */
  lemma BatchStopsAt(e: Result<Extractor>, texts: seq<string>, i: nat, m: string)
    requires i < |texts|
    requires EmbedWith(e, texts[i]) == Err(m)
    requires i > 0 ==> e.Ok? && EmbedAll(e.value, texts[..i]).Ok?
    ensures Batch(e, texts) == Err(m)
  {
    if e.Ok? {
      var f := e.value;
      EmbedAllSucceedsIff(f, texts[..i]);
      assert forall j | 0 <= j < i :: texts[..i][j] == texts[j];
      EmbedAllFirstError(f, texts, i);
    }
  }
}
