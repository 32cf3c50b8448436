/** The picture widget's lazily loaded texture: a picture is either a pending
    load of a file or a texture resident on the GPU, and is turned from the
    first into the second only when it is drawn. */
module Pictures {

  type Path = string

  import opened Wrappers

  /** A texture on the GPU, identified by the upload that created it. */
  datatype Handle = Handle(upload: nat)

  /** A decoded image, held in memory before its upload. */
  datatype Image = Image(width: nat, height: nat)

  datatype ImageError = ImageError(message: string)

  datatype Result<T> = Ok(value: T) | Err(error: ImageError)

  /** The two states of a picture. */
  datatype Picture = LoadRequested(path: Path) | Ready(texture: Handle)

  /** The collaborators: the image decoder (fallible) and the display that
      textures are uploaded to (infallible). Every decode and every upload is
      recorded. */
  class Backend {
    const decode: Path -> Result<Image>
    var decoded: seq<Path>
    var uploads: nat

    constructor (decode: Path -> Result<Image>)
      ensures this.decode == decode && decoded == [] && uploads == 0
    {
      this.decode := decode;
      decoded := [];
      uploads := 0;
    }

    /** image::open followed by into_rgba. */
    method Open(path: Path) returns (r: Result<Image>)
      modifies this`decoded
      ensures r == decode(path)
      ensures decoded == old(decoded) + [path]
    {
      r := decode(path);
      decoded := decoded + [path];
    }

    /** cpu_to_texture: every upload makes a new texture. */
    method CpuToTexture(img: Image) returns (h: Handle)
      modifies this`uploads
      ensures h == Handle(old(uploads)) && uploads == old(uploads) + 1
    {
      h := Handle(uploads);
      uploads := uploads + 1;
    }
  }

  /** What resolving a picture gives, when the decoder is `decode` and the next
      upload would be number `next`: the picture afterwards and the texture or
      the decode error. */
  function Resolve(p: Picture, decode: Path -> Result<Image>, next: nat): (Picture, Result<Handle>) {
    match p
    case Ready(h) => (p, Ok(h))
    case LoadRequested(path) =>
      match decode(path)
      case Ok(_) => (Ready(Handle(next)), Ok(Handle(next)))
      case Err(e) => (LoadRequested(""), Err(e))
  }

  /** The files a resolution decodes: the path of a pending picture, if any. */
  function Decodes(p: Picture): seq<Path> {
    if p.LoadRequested? then [p.path] else []
  }

  /** The number of textures a resolution uploads. */
  function Uploads(p: Picture, decode: Path -> Result<Image>): nat {
    if p.LoadRequested? && decode(p.path).Ok? then 1 else 0
  }

  /** What fetching the texture of a widget's picture slot gives: the slot
      afterwards and the texture, if any. A failed decode empties the slot. */
  function Fetch(slot: Option<Picture>, decode: Path -> Result<Image>, next: nat): (Option<Picture>, Option<Handle>) {
    match slot
    case None => (None, None)
    case Some(p) =>
      var (after, r) := Resolve(p, decode, next);
      if r.Ok? then (Some(after), Some(r.value)) else (None, None)
  }

  /** Picture::upload_to_texture: the picture is swapped out for an empty load
      request, and put back as a texture unless the decode fails. */
  method UploadToTexture(picture: Picture, backend: Backend) returns (after: Picture, r: Result<()>)
    modifies backend
    ensures r.Ok? ==> after.Ready?
    ensures r.Ok? <==> Resolve(picture, backend.decode, old(backend.uploads)).1.Ok?
    ensures after == Resolve(picture, backend.decode, old(backend.uploads)).0
    ensures r.Err? ==> r.error == Resolve(picture, backend.decode, old(backend.uploads)).1.error
    ensures backend.decoded == old(backend.decoded) + Decodes(picture)
    ensures backend.uploads == old(backend.uploads) + Uploads(picture, backend.decode)
  {
    var current := picture;
    var tmp := LoadRequested("");
    current, tmp := tmp, current;
    match tmp {
      case LoadRequested(path) =>
        var img := backend.Open(path);
        if img.Err? {
          return current, Err(img.error);
        }
        var texture := backend.CpuToTexture(img.value);
        current := Ready(texture);
      case Ready(texture) =>
        current := Ready(texture);
    }
    return current, Ok(());
  }

  /** Picture::texture: the resident texture, uploading it first if needed. */
  method Texture(picture: Picture, backend: Backend) returns (after: Picture, r: Result<Handle>)
    modifies backend
    ensures (after, r) == Resolve(picture, backend.decode, old(backend.uploads))
    ensures backend.decoded == old(backend.decoded) + Decodes(picture)
    ensures backend.uploads == old(backend.uploads) + Uploads(picture, backend.decode)
  {
    var uploaded;
    after, uploaded := UploadToTexture(picture, backend);
    if uploaded.Err? {
      return after, Err(uploaded.error);
    }
    match after {
      case Ready(texture) =>
        r := Ok(texture);
      case LoadRequested(_) =>
        assert false;
    }
  }

  datatype MouseButton = Left | Right | Middle | OtherButton(code: nat)
  datatype ElementState = Pressed | Released

  /** The widget events the picture reacts to; `insideBounds` says whether the
      cursor lies within the widget's drawn bounds. */
  datatype WidgetEvent =
    | MouseMove(insideBounds: bool)
    | MouseInput(button: MouseButton, state: ElementState)
    | DroppedFile(path: Path)
    | OtherWidgetEvent

  /** The state of the picture widget that the event loop and drawing change. */
  class PictureWidget {
    var imageTexture: Option<Picture>
    var click: bool
    var hover: bool
    var renderedValid: bool

    constructor ()
      ensures imageTexture == None && !click && !hover && !renderedValid
    {
      imageTexture := None;
      click := false;
      hover := false;
      renderedValid := false;
    }

    /** is_valid: no redraw is needed. */
    predicate IsValid()
      reads this
    {
      renderedValid
    }

    /** get_texture: the texture of the current picture; a failed decode empties
        the slot for good. Afterwards the slot is never a pending load. */
    method GetTexture(backend: Backend) returns (texture: Option<Handle>)
      modifies this`imageTexture, backend
      ensures (imageTexture, texture) == Fetch(old(imageTexture), backend.decode, old(backend.uploads))
      ensures old(imageTexture).Some? ==>
                && backend.decoded == old(backend.decoded) + Decodes(old(imageTexture).value)
                && backend.uploads == old(backend.uploads) + Uploads(old(imageTexture).value, backend.decode)
      ensures old(imageTexture).None? ==>
                backend.decoded == old(backend.decoded) && backend.uploads == old(backend.uploads)
    {
      if imageTexture.Some? {
        var after, r := Texture(imageTexture.value, backend);
        imageTexture := Some(after);
        match r {
          case Ok(img) =>
            texture := Some(img);
          case Err(_) =>
            imageTexture := None;
            texture := None;
        }
      } else {
        texture := None;
      }
    }

    /** handle_event: hover follows the cursor, a left press or release updates
        click and asks for a redraw, a dropped file becomes the new pending load. */
    method HandleEvent(ev: WidgetEvent)
      modifies this`imageTexture, this`click, this`hover, this`renderedValid
      ensures ev.MouseMove? ==>
                hover == ev.insideBounds
                && click == old(click) && renderedValid == old(renderedValid) && imageTexture == old(imageTexture)
      ensures ev.MouseInput? && ev.button == Left ==>
                click == (ev.state == Pressed && old(hover)) && !renderedValid
                && hover == old(hover) && imageTexture == old(imageTexture)
      ensures ev.DroppedFile? ==>
                imageTexture == Some(LoadRequested(ev.path)) && !renderedValid
                && click == old(click) && hover == old(hover)
      ensures (ev.MouseInput? && ev.button != Left) || ev.OtherWidgetEvent? ==>
                click == old(click) && hover == old(hover) && renderedValid == old(renderedValid)
                && imageTexture == old(imageTexture)
    {
      match ev {
        case MouseMove(inside) =>
          hover := inside;
        case MouseInput(button, state) =>
          if button == Left {
            match state {
              case Pressed => click := hover;
              case Released => click := false;
            }
            renderedValid := false;
          }
        case DroppedFile(path) =>
          imageTexture := Some(LoadRequested(path));
          renderedValid := false;
        case OtherWidgetEvent =>
      }
    }

    /** draw, without the geometry: the texture is fetched (and loaded if
        pending), and the widget is valid afterwards. */
    method Draw(backend: Backend) returns (texture: Option<Handle>)
      modifies this`imageTexture, this`renderedValid, backend
      ensures IsValid()
      ensures (imageTexture, texture) == Fetch(old(imageTexture), backend.decode, old(backend.uploads))
      ensures old(imageTexture).Some? ==>
                && backend.decoded == old(backend.decoded) + Decodes(old(imageTexture).value)
                && backend.uploads == old(backend.uploads) + Uploads(old(imageTexture).value, backend.decode)
      ensures old(imageTexture).None? ==>
                backend.decoded == old(backend.decoded) && backend.uploads == old(backend.uploads)
    {
      texture := GetTexture(backend);
      renderedValid := true;
    }
  }

  // ---------------------------------------------------------------------------
  // Properties
  // ---------------------------------------------------------------------------

  /** Once resident, a picture stays resident with the same texture and needs
      no decode: resolving is idempotent. */
  lemma ResolveIdempotent(p: Picture, decode: Path -> Result<Image>, next: nat, later: nat)
    requires Resolve(p, decode, next).1.Ok?
    ensures Resolve(p, decode, next).0 == Ready(Resolve(p, decode, next).1.value)
    ensures Resolve(Resolve(p, decode, next).0, decode, later) == Resolve(p, decode, next)
  {
  }

  /** A failed decode never leaves a resident picture behind. */
  lemma FailedDecodeLeavesNoTexture(p: Picture, decode: Path -> Result<Image>, next: nat)
    requires Resolve(p, decode, next).1.Err?
    ensures p.LoadRequested? && decode(p.path).Err?
    ensures Resolve(p, decode, next).0 == LoadRequested("")
  {
  }

  /** After a fetch the slot is never a pending load, and a texture is
      returned exactly when the slot holds it. */
  lemma FetchLeavesNoPending(slot: Option<Picture>, decode: Path -> Result<Image>, next: nat)
    ensures var (after, texture) := Fetch(slot, decode, next);
            && (after.None? || after.value.Ready?)
            && (texture.Some? <==> after.Some?)
            && (texture.Some? ==> after == Some(Ready(texture.value)))
  {
  }

  /** A second fetch gives the same slot and texture, and decodes and uploads
      nothing. */
  lemma FetchIdempotent(slot: Option<Picture>, decode: Path -> Result<Image>, next: nat, later: nat)
    ensures var (after, texture) := Fetch(slot, decode, next);
            && Fetch(after, decode, later) == (after, texture)
            && (after.Some? ==> Decodes(after.value) == [] && Uploads(after.value, decode) == 0)
  {
  }

  /** A dropped file whose decode fails leaves the widget empty. */
  lemma FetchFailedDrop(path: Path, decode: Path -> Result<Image>, next: nat)
    requires decode(path).Err?
    ensures Fetch(Some(LoadRequested(path)), decode, next) == (None, None)
  {
  }

  /** Resolving the same pending picture twice decodes and uploads once, and
      both calls give the same texture. */
  method TextureTwice(path: Path, backend: Backend) returns (first: Result<Handle>, second: Result<Handle>)
    modifies backend
    ensures first.Ok? ==> second == first
    ensures backend.decoded == old(backend.decoded) + [path]
    ensures backend.uploads == old(backend.uploads) + (if first.Ok? then 1 else 0)
  {
    var p := LoadRequested(path);
    p, first := Texture(p, backend);
    if first.Ok? {
      p, second := Texture(p, backend);
    } else {
      second := first;
    }
  }

  /** After a failed decode the widget shows nothing, and a second draw neither
      decodes again nor fails. */
  method DrawAfterFailedDecode(widget: PictureWidget, path: Path, backend: Backend)
      returns (first: Option<Handle>, second: Option<Handle>)
    requires backend.decode(path).Err?
    modifies widget, backend
    ensures first.None? && second.None? && widget.imageTexture.None?
    ensures backend.decoded == old(backend.decoded) + [path]
    ensures backend.uploads == old(backend.uploads)
  {
    widget.HandleEvent(DroppedFile(path));
    first := widget.Draw(backend);
    second := widget.Draw(backend);
  }
}
