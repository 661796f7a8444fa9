# Sprite renderer and texture manager, modelled in Dafny

This project models the deterministic bookkeeping in the engine's 2D sprite
renderer and its texture manager. The OpenGL, FreeImage and freetype-gl calls
around that bookkeeping are abstracted away.

- **QuadIndices** (`quad_indices.dfy`). The index buffer that `SpriteRenderer::init`
  builds. Quad q gets the six indices 4q+{0,1,2,2,3,0}, stored as `GLushort`. The
  loop is an imperative method with loop invariants, and the 16-bit storage is
  written out as reduction modulo 2^16.
- **SpriteBatch** (`sprite_batch.dfy`). The batch state: the vertices written
  since `Begin` (the length is the write cursor of the mapped buffer), the pending
  index count, and whether the buffer is mapped. `Draw` appends one recoloured
  quad and six indices. `End` reports the count it hands to `glDrawElements` and
  resets it. A frame (`DrawAll`) is proved equal to an independent reference: the
  sprites' quads laid end to end (`QuadStream`).
- **PenScan** and **TextLayout** (`pen_scan.dfy`, `text_layout.dfy`). `DrawText`:
  - a character without a glyph is skipped and does not move the pen;
  - kerning is zero at position 0 and otherwise taken against the previous
    character of the string;
  - one glyph quad is emitted at the kerned pen;
  - the pen then advances by the glyph's advance.

  Glyph lookup and kerning are the two functions of a `Font`. The output is
  related to a generic pen scan, which gives a closed form for the position and
  contents of every glyph quad.
- **StringOrder** and **AtlasTable** (`string_order.dfy`, `atlas_table.dfy`). The
  `textures` map from file name to (x, y, width, height). It is an association list
  kept in strictly increasing `std::string` order, which is the order a range-for
  over a `std::map` visits it.
- **ImageDecoding** (`image_decoding.dfy`). The FreeImage pipeline that the
  manager repeats in three places: file signature, then file name, then
  "supports reading", then load. The four library calls are the fields of an
  `ImageLib`.
- **TextureManager** (`texture_manager.dfy`). The manager's state:
  - the texID → GL texture map (`m_texID`), with replace-on-reuse loading;
  - the id generator;
  - `AddTexture` and `CreateTextureAtlas` over the atlas table;
  - the lazily created single instance.

  GL texture names come from a counter, so `glGenTextures` never returns 0 or a
  live name, and never returns a name that was deleted earlier (see "Left out").
  The atlas region allocator (`texture_atlas_get_region`) is a function
  parameter.

Float arithmetic is modelled with `real`. Buffer capacity appears as a
precondition (`HasRoom`); overflow is not modelled.

## Model

| member | source | states |
|---|---|---|
| QuadIndices.Ushort | Engine/Engine-core/SpriteRenderer.cpp:24 | storing into a GLushort yields a value in [0, 2^16), equal to the input when the input is already in range |
| QuadIndices.WriteQuad | Engine/Engine-core/SpriteRenderer.cpp:28-34 | one loop iteration extends the filled prefix by one quad: slots 6q..6q+5 receive 4q+{0,1,2,2,3,0} (mod 2^16) and earlier quads keep their values |
| QuadIndices.GenerateIndices | Engine/Engine-core/SpriteRenderer.cpp:24-37 | the init loop fills every quad q of the buffer with 4q+0, 4q+1, 4q+2, 4q+2, 4q+3, 4q+0 (mod 2^16), over the whole buffer |
| QuadIndices.IndexAtSlot | Engine/Engine-core/SpriteRenderer.cpp:26-36 | slot k of the built buffer holds 4·(k/6) plus the pattern offset for k mod 6, stored in 16 bits |
| QuadIndices.BlockPattern | Engine/Engine-core/SpriteRenderer.cpp:28-34 | when nothing wraps, quad q's six slots are exactly [4q, 4q+1, 4q+2, 4q+2, 4q+3, 4q] |
| QuadIndices.IndexInOwnQuad | Engine/Engine-core/SpriteRenderer.cpp:26-36 | when nothing wraps, every index names a vertex of its own quad (index/4 == slot/6) and lies below 4·(number of quads) |
| QuadIndices.BlockNamesFourVertices | Engine/Engine-core/SpriteRenderer.cpp:28-34 | each quad's six indices name exactly the four distinct vertices 4q..4q+3 |
| QuadIndices.WrapAliasesFirstQuad | Engine/Engine-core/SpriteRenderer.cpp:24-36 | in a buffer longer than 16384 quads, the first slot of quad 16384 wraps to vertex 0, the same vertex as quad 0 |
| SpriteBatch.NewRenderer | Engine/Engine-core/SpriteRenderer.cpp:24-37 | construction builds the index buffer for the capacity, with four vertex slots per quad, no batch open and nothing pending |
| SpriteBatch.Begin | Engine/Engine-core/SpriteRenderer.cpp:131-139 | on an unmapped buffer, mapping restarts writing at slot 0 with room for every quad and keeps the pending count; the batch is consistent iff nothing is pending |
| SpriteBatch.AppendQuad | Engine/Engine-core/SpriteRenderer.cpp:149-159 | the written vertices become the old ones followed by the quad, with six more indices pending; whole quads with six indices each stay consistent |
| SpriteBatch.SpriteQuad | Engine/Engine-core/SpriteRenderer.cpp:145-157 | four vertices; vertex i has the position and texture coordinate of rect corner i, starting at bl, and the sprite's colour |
| SpriteBatch.Draw | Engine/Engine-core/SpriteRenderer.cpp:141-160 | Draw appends exactly the sprite's recoloured quad behind what was written (earlier vertices unchanged) and adds 6 pending indices |
| SpriteBatch.End | Engine/Engine-core/SpriteRenderer.cpp:161-173 | End submits exactly the pending count, resets it to 0 and unmaps; the written vertices are untouched |
| SpriteBatch.BeginAfterEnd | Engine/Engine-core/SpriteRenderer.cpp:169-172 | a batch begun after End starts empty with zero pending indices |
| SpriteBatch.QuadStreamAt | Engine/Engine-core/SpriteRenderer.cpp:149-158 | in the reference stream of a frame, sprite n's corner i sits at offset 4n+i |
| SpriteBatch.DrawAll | Engine/Engine-core/SpriteRenderer.cpp:141-160 | drawing N sprites appends exactly the reference quad stream of those sprites and 6N pending indices |
| SpriteBatch.DrawAllPlacement | Engine/Engine-core/SpriteRenderer.cpp:145-157 | in a frame, vertex 4n+i behind the start cursor is corner i of sprite n recoloured with sprite n's colour |
| SpriteBatch.FrameSubmitsSixPerSprite | Engine/Engine-core/SpriteRenderer.cpp:141-173 | End, Begin, N draws, End: the draw call covers 6N indices over 4N vertices |
| SpriteBatch.SubmittedIndicesNameWrittenVertices | Engine/Engine-core/SpriteRenderer.cpp:169 | with a non-wrapping index buffer, every index the draw call uses names a vertex written in this batch |
| TextLayout.KerningAt | Engine/Engine-core/SpriteRenderer.cpp:74-78 | kerning is 0 for the character at position 0 and otherwise the font's kerning of the glyph against text[i-1], with no regard to whether that character has a glyph |
| TextLayout.GlyphQuad | Engine/Engine-core/SpriteRenderer.cpp:81-119 | a glyph quad is (x0,y0),(x0,y1),(x1,y1),(x1,y0) with x0 = pen.x+offset_x, y0 = pen.y+offset_y, x1 = x0+width, y1 = y0-height, textured (s0,t0),(s0,t1),(s1,t1),(s1,t0), all in the call's colour |
| TextLayout.Movement | Engine/Engine-core/SpriteRenderer.cpp:72-98 | the pen moves by the kerning plus the advance of the character's glyph, and not at all for a character without a glyph |
| TextLayout.StepQuad | Engine/Engine-core/SpriteRenderer.cpp:71-121 | one character emits four vertices if it has a glyph and none otherwise |
| TextLayout.GlyphStep | Engine/Engine-core/SpriteRenderer.cpp:71-125 | one loop iteration appends the character's quad, adds 6 indices per glyph, and moves the pen x by kerning plus advance (by 0 without a glyph) while y is kept |
| TextLayout.TextQuadsStep | Engine/Engine-core/SpriteRenderer.cpp:69-127 | the text's stream from position i is i's quad followed by the stream from i+1 at the moved pen |
| TextLayout.DrawTextFrom | Engine/Engine-core/SpriteRenderer.cpp:69-127 | the loop from position i appends exactly the stream of text[i..], adds 6 indices per glyph, never moves pen y, and keeps the batch consistent |
| TextLayout.DrawText | Engine/Engine-core/SpriteRenderer.cpp:63-128 | DrawText appends 4 vertices and 6 indices per character with a glyph, leaves earlier vertices unchanged, and never moves pen y |
| TextLayout.PenAdvance | Engine/Engine-core/SpriteRenderer.cpp:74-98 | the pen ends displaced in x by the sum of kerning plus advance over the characters with a glyph |
| TextLayout.PenAfterClosedForm | Engine/Engine-core/SpriteRenderer.cpp:79-98 | the pen that reaches position j sits at the start x plus the movement over text[i..j], with unchanged y |
| TextLayout.EmittedLength | Engine/Engine-core/SpriteRenderer.cpp:69-124 | the characters of text[i..j] emit four vertices per character with a glyph |
| TextLayout.GlyphAtPen | Engine/Engine-core/SpriteRenderer.cpp:74-119 | the quad of character j is the glyph quad at start x + movement over text[i..j] + j's own kerning |
| TextLayout.StreamSlot | Engine/Engine-core/SpriteRenderer.cpp:69-124 | offset 4·(glyphs before j)+m of the text's stream is offset m of what character j emits at the pen reached there |
| TextLayout.GlyphInStream | Engine/Engine-core/SpriteRenderer.cpp:69-124 | character j's quad sits right behind the quads of the glyphs before it, drawn at the closed-form pen |
| TextLayout.QuadPlacement | Engine/Engine-core/SpriteRenderer.cpp:69-124 | after DrawText, the vertices at offset 4·(glyphs before j) behind the start cursor are j's glyph quad, kerned against text[j-1] whether or not that character has a glyph |
| TextLayout.KernedAgainstPrevious | Engine/Engine-core/SpriteRenderer.cpp:74-81 | after DrawText, the first corner of character j's quad lies at the start x plus the movement over text[..j] plus the glyph's x offset, plus no kerning for j = 0 and otherwise the kerning against text[j-1] |
| TextLayout.NoGlyphsNoOutput | Engine/Engine-core/SpriteRenderer.cpp:71-72 | characters without glyphs emit nothing and leave the pen where it was |
| TextLayout.KerningExample | Engine/Engine-core/SpriteRenderer.cpp:74-98 | "AB" with kerning -2 and advances 10 and 8 ends with the pen at x = 16, after two quads |
| TextLayout.MissingGlyphExample | Engine/Engine-core/SpriteRenderer.cpp:71-98 | in "A?B" with no glyph for '?', 8 vertices are written and B is still kerned against '?' |
| PenScan.ScanSplit | Engine/Engine-core/SpriteRenderer.cpp:69-127 | the loop's output over i..n is its output over i..j followed by its output over j..n from the pen reached at j |
| PenScan.ScanAt | Engine/Engine-core/SpriteRenderer.cpp:69-127 | what position j emits sits in the output right behind everything emitted before j |
| StringOrder.LessIrreflexive | Engine/Engine-core/TextureManager.h:26 | no key sorts before itself |
| StringOrder.LessTransitive | Engine/Engine-core/TextureManager.h:26 | the key order is transitive |
| StringOrder.LessTotal | Engine/Engine-core/TextureManager.h:26 | any two different keys are ordered, so a map visits its keys in one total order |
| AtlasTable.Find | Engine/Engine-core/TextureManager.cpp:148 | find succeeds iff the name is a key, and returns a slot stored under that name |
| AtlasTable.FindAt | Engine/Engine-core/TextureManager.h:26 | in a map-ordered table each key occurs once, so find returns the slot at the key's own position |
| AtlasTable.InsertInFront | Engine/Engine-core/TextureManager.cpp:185 | inserting a key below the first key in front is a valid insertion |
| AtlasTable.InsertBehindHead | Engine/Engine-core/TextureManager.cpp:185 | inserting a key not below the first key behind the head is a valid insertion |
| AtlasTable.Insert | Engine/Engine-core/TextureManager.cpp:185 | operator[] on a new key: one entry and one key more, the new slot found under the key, every other key's slot unchanged, key order kept |
| AtlasTable.SetSlot | Engine/Engine-core/TextureManager.cpp:73 | operator[] on an existing key overwrites only that entry's slot; keys and order stay |
| ImageDecoding.DetectFormat | Engine/Engine-core/TextureManager.cpp:162-165 | the file signature decides the format; the file name is consulted only when the signature is unknown |
| ImageDecoding.OpenImage | Engine/Engine-core/TextureManager.cpp:162-175 | no bitmap iff the format stays unknown, is not readable, or loading returns null; otherwise it is the loaded bitmap |
| TextureManager.New | Engine/Engine-core/TextureManager.h:24-64 | a new manager satisfies the registry invariant (every mapped id holds its own live texture; the table is key-ordered) |
| TextureManager.GenTexture | Engine/Engine-core/TextureManager.cpp:236 | glGenTextures returns a non-zero name that is not live, and only makes it live |
| TextureManager.GenerateId | Engine/Engine-core/TextureManager.h:53-56 | generateId returns the counter's value and advances it by exactly 1, changing nothing else |
| TextureManager.GenerateIds | Engine/Engine-core/TextureManager.h:53-56 | n calls return ids+0, ids+1, …, ids+n-1 and leave the counter at ids+n |
| TextureManager.IdsFromNew | Engine/Engine-core/TextureManager.h:64 | from the initial counter 0 the ids are 0, 1, 2, …, strictly increasing and hence distinct |
| TextureManager.LoadTexture | Engine/Engine-core/TextureManager.cpp:193-256 | succeeds iff the image decodes with pixels and non-zero sides; on failure nothing changes; on success texID maps to a new live texture, the old one is deleted, and every other key is unchanged |
| TextureManager.LoadReplacesExisting | Engine/Engine-core/TextureManager.h:33-36 | loading into an id already in use leaves the same set of ids, every other id on its texture, and the live textures changed by exactly deleting the old one and adding the one generated for the id (distinct from the old one under the allocator's no-reuse assumption) |
| TextureManager.LoadTextureNewId | Engine/Engine-core/TextureManager.cpp:136-144 | always consumes one id; returns it iff the load succeeds, else returns -1 with only the counter changed; on success every other id keeps its texture, a texture already mapped at the new id is deleted, the new name is added to the live set, and the atlas table and sizes are unchanged |
| TextureManager.NewIdReplacesExplicit | Engine/Engine-core/TextureManager.cpp:136-144 | when the next generated id was already used by an explicit load, the id-allocating overload returns that id and deletes the texture loaded there |
| TextureManager.NewIdsNeverRepeat | Engine/Engine-core/TextureManager.cpp:136-144 | two loads in a row through the id-allocating overload never return the same id, even after a failed first load |
| TextureManager.UnloadTexture | Engine/Engine-core/TextureManager.cpp:260-276 | returns true iff the id was mapped, then removes exactly that key and deletes its texture; otherwise nothing changes |
| TextureManager.UnloadTwice | Engine/Engine-core/TextureManager.cpp:260-276 | unloading a mapped id twice returns true, then false, and the second call changes nothing |
| TextureManager.LoadThenUnload | Engine/Engine-core/TextureManager.cpp:193-276 | a successful load followed by an unload of the same id leaves the map without that id and otherwise as before |
| TextureManager.UnloadAllTextures | Engine/Engine-core/TextureManager.cpp:301-312 | afterwards the map is empty, every texture it held is deleted, and no other texture is touched |
| TextureManager.AddTexture | Engine/Engine-core/TextureManager.cpp:145-192 | succeeds iff the name is new and the image loads with non-zero sides; on success it records (-1,-1,w,h) and grows the atlas by w and h; on failure nothing changes; other names are untouched |
| TextureManager.InsertSums | Engine/Engine-core/TextureManager.cpp:185-187 | inserting an entry adds its width and height to the table's width and height totals |
| TextureManager.AtlasSizeIsSumOfSides | Engine/Engine-core/TextureManager.cpp:185-187 | starting from 0 × 0, after any sequence of AddTexture calls the atlas size is the sum of the recorded widths and heights |
| TextureManager.PackFrom | Engine/Engine-core/TextureManager.cpp:36-81 | the build loop stops at the first entry that does not decode; every entry before it gets (region.x, region.y, w, h) from the packer; later entries and all keys are kept |
| TextureManager.CreateTextureAtlas | Engine/Engine-core/TextureManager.cpp:29-93 | pads both sides by 2; completes iff every entry decodes; entries processed before a failure keep their new slots; a completed build gives the new atlas a new GL texture, a failed one leaves the new atlas without any |
| TextureManager.AddThenBuild | Engine/Engine-core/TextureManager.cpp:71-73 | after a successful add and a completed build, the file's slot carries the image's own width and height |
| TextureManager.Inst | Engine/Engine-core/TextureManager.cpp:13-19 | Inst creates a new manager only when none exists, returns the existing one otherwise, and always leaves the instance set |
| TextureManager.Store | Engine/Engine-core/TextureManager.cpp:13-19 | after the manager's new state is stored back, Inst returns exactly that state |
| TextureManager.LoadSeenByNextInst | Engine/Engine-core/TextureManager.cpp:13-19 | a texture loaded through the manager Inst returns, once stored back, is mapped in the manager the next Inst returns |
| TextureManager.InstReturnsSame | Engine/Engine-core/TextureManager.cpp:13-19 | a second Inst returns the same manager and changes nothing |
| TextureManager.Destroy | Engine/Engine-core/TextureManager.cpp:125-134 | the destructor empties the texID map and resets the instance pointer to null |
| TextureManager.InstAfterDestroy | Engine/Engine-core/TextureManager.cpp:125-134 | after destruction, Inst builds a new manager |

## Left out

- All OpenGL calls: VAO/VBO/IBO creation, buffer upload, glMapBuffer and
  glUnmapBuffer, glDrawElements, texture upload and parameters, binding. A GL
  texture is a name from a counter; a draw call is the count `End` returns.
- `SetShaderId`, `SetModelViewMatrix` and `SetProjectionMatrix` only set GL
  uniforms.
- `BindTextures` and `UnBindTextures` only change GL state.
- `LoadFont` is a freetype-gl call with a hard-coded glyph string.
- FreeImage: it appears as the four functions of `ImageLib`. Pitch, bit depth and
  pixel data are not modelled.
- freetype-gl: glyph lookup and kerning are the functions of a `Font`, and
  `texture_atlas_get_region` is the `Packer` parameter.
- `texture_atlas_set_region` (copying the pixels into the atlas) is not modelled,
  and neither is region non-overlap, because the packer's code is not part of this
  model.
- SpriteBatch.Begin: the call `TextureManager::Inst()->BindTexture(0)` is not
  modelled. `BindTexture` is declared but not defined in the code, so it is not
  part of this model. The one manager-side effect of the call, creating the
  instance on first use, is stated by TextureManager.Inst. A Begin on a buffer
  that is already mapped is excluded by a precondition, because `glMapBuffer`
  then fails and leaves no write pointer.
- SpriteBatch.Draw: AppendQuad, Draw and DrawText require an open batch
  (`mapped`). Outside Begin/End the code writes through a stale or null
  `m_buffer`, which is not modelled.
- TextLayout.DrawText: `text` is the content of the C string before its
  terminator, so the loop bound `strlen(text)` is `|text|`. A NUL byte inside
  `text` would end the loop in the code but not in the model.
- Float rounding: pen and vertex arithmetic uses `real`.
- Raw pointer writes past the mapped buffer: `Draw` and `DrawText` require room
  (`HasRoom`) instead of modelling an overflow.
- SpriteRenderer.h is not part of this model, so the buffer sizes are parameters:
  - `TOTAL_INDICES_SIZE` is the `total` argument, required to be a multiple of 6;
  - the vertex capacity is four slots per quad;
  - the initial pending index count is taken to be 0.
- SpriteComponent.h is not part of this model. `Rect` lists the four vertices in
  the memory order `Draw` walks from `bl`.
- UTF-8: `DrawText` looks up one `char` at a time, as the loop over `strlen` bytes
  does. Multi-byte glyph lookup inside the font library is not modelled.
- TextureManager.GenerateId: the `int` counter is unbounded; 32-bit overflow after
  2^31 ids is not modelled.
- TextureManager.GenTexture: names are drawn from a counter and are never reused
  after `glDeleteTextures`. OpenGL only promises a name not currently in use, so a
  real driver may hand back the name just deleted.
- LoadReplacesExisting: its clauses that the new name differs from the old one
  and that the old name is no longer live rest on that no-reuse assumption. The
  live-set equation it also states (old name removed, new name added) holds
  without it. The same holds for LoadTexture's and LoadTextureNewId's
  "not previously live" clauses.
- TextureManager.AddTexture: `atlas_width` and `atlas_height` are `int` in the
  code. Their signed overflow under `+= width`, `+= height` and the `+= 2` of the
  atlas build is not modelled. Neither is the conversion of FreeImage's unsigned
  width and height to `int` (image sides are `nat` here).
- TextureManager.Inst: the single instance is held by value, not by pointer.
  The code shares one object, so a change made through `Inst()` is seen by every
  later call. The model reaches this only when the caller stores the new state
  back with Store, as LoadSeenByNextInst shows.
- TextureManager.UnloadAllTextures: only the intended post-state is stated (every
  mapped texture deleted, the map cleared). The loop in the source never advances
  its iterator past an erased element, which is undefined behaviour, so the
  behaviour as written cannot be stated.
- TextureManager.CreateTextureAtlas: the success path falls off the end of a
  `bool` function without a return value, so the model reports only whether the
  build ran to completion. A region the packer cannot place is not checked, as in
  the code. A failed build is not atomic: the entries already visited keep their
  new slots. The code is followed here, not a reading of the build as all-or-nothing.
- TextureManager.CreateTextureAtlas: each build replaces the atlas before its
  loop. The previous atlas's GL texture is never deleted: it stays live but is no
  longer referenced, after a completed build and after a failed one alike. After
  a failed build the current atlas has no GL texture (`atlasTexture` is None).
  The code then binds that atlas's unset id in `BindTextures`, which is not
  modelled.
- Header mismatches follow the .cpp definitions:
  - `AddTexture` is declared with width/height out-parameters but defined without
    them;
  - `CreateAtlas` is declared, but `CreateTextureAtlas` is defined;
  - `textures` is declared as `map<string, double>` but stores four-component
    values.
- GraphicsComponent.h is only an abstract interface and is not modelled.
