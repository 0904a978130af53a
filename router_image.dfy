/** The image endpoints: listing the images a user may see, and deleting one
    of the user's own commit images from the container runtime. */
module RouterImage {
  import opened Wrappers
  import opened PodyConfig
  import opened NameParse
  import Seqs

  /** The filter the endpoints build for the requesting user. */
  function UserFilter(cfg: Config, rawImages: seq<string>, userName: string,
                      commitName: string, commitImagePorts: seq<int>): ImageFilter
  {
    ImageFilter(cfg, rawImages, Some(userName), commitName, commitImagePorts)
  }

  /** `list_images`: the runtime's images, in order, that the user's filter lets through. */
  function ListImages(cfg: Config, rawImages: seq<string>, userName: string,
                      commitName: string, commitImagePorts: seq<int>): (r: seq<string>)
    ensures Seqs.IsSubseq(r, rawImages)
    ensures forall q :: q in r <==> q in rawImages && UserFilter(cfg, rawImages, userName, commitName, commitImagePorts).Contains(q)
  {
    var f := UserFilter(cfg, rawImages, userName, commitName, commitImagePorts);
    ListIsVisibleSubsequence(f);
    f.List()
  }

  const ImageNotFound := "Image not found, please check the available images"
  const NotUserImage := "Can only delete user commit images"

  /** The answer of `delete_image` for the runtime image list `images`. */
  function DeleteOutcome(images: seq<string>, image: string, userName: string, cfg: Config,
                         commitName: string, commitImagePorts: seq<int>): (r: Result<string>)
    ensures r.Ok? ==> image in images && r.value == "Image " + image + " deleted"
    ensures r.Err? ==> r.error == InvalidInput(ImageNotFound) || r.error == PermissionDenied(NotUserImage)
  {
    if image !in images then Err(InvalidInput(ImageNotFound))
    else if !UserFilter(cfg, images, userName, commitName, commitImagePorts).IsUserImage(image) then
      Err(PermissionDenied(NotUserImage))
    else Ok("Image " + image + " deleted")
  }

  /** The checks come in order: an image the runtime does not have is
      reported missing whoever owns it; an image that is present but not the
      user's own commit image is refused; anything else is deleted. */
  lemma DeleteOrder(images: seq<string>, image: string, userName: string, cfg: Config,
                    commitName: string, commitImagePorts: seq<int>)
    ensures image !in images ==>
      DeleteOutcome(images, image, userName, cfg, commitName, commitImagePorts) == Err(InvalidInput(ImageNotFound))
    ensures image in images && image != commitName + ":" + userName && !(commitName + ":" + userName + "-" <= image) ==>
      DeleteOutcome(images, image, userName, cfg, commitName, commitImagePorts) == Err(PermissionDenied(NotUserImage))
    ensures DeleteOutcome(images, image, userName, cfg, commitName, commitImagePorts).Ok? <==>
      image in images && (image == commitName + ":" + userName || commitName + ":" + userName + "-" <= image)
  {}

  /** For dash-free user names, another user's commit image, tagged or not,
      is never deleted. */
  lemma ForeignUserImageRefused(images: seq<string>, a: string, b: string, x: string, cfg: Config,
                                commitName: string, commitImagePorts: seq<int>)
    requires '-' !in a && '-' !in b && a != b
    ensures DeleteOutcome(images, commitName + ":" + b, a, cfg, commitName, commitImagePorts).Err?
    ensures DeleteOutcome(images, commitName + ":" + b + "-" + x, a, cfg, commitName, commitImagePorts).Err?
  {
    ForeignCommitImage(UserFilter(cfg, images, a, commitName, commitImagePorts), a, b, x);
  }

  /** The container runtime's image collection, by name. */
  class ImageStore {
    var images: seq<string>

    constructor(images0: seq<string>)
      ensures images == images0
    {
      images := images0;
    }

    /** `delete_image`: check, then remove exactly the named image. */
    method DeleteImage(image: string, userName: string, cfg: Config,
                       commitName: string, commitImagePorts: seq<int>) returns (r: Result<string>)
      modifies this
      ensures r == DeleteOutcome(old(images), image, userName, cfg, commitName, commitImagePorts)
      ensures r.Err? ==> images == old(images)
      ensures r.Ok? ==> images == Seqs.Filter(old(images), q => q != image)
      ensures r.Ok? ==> image !in images && forall q :: q != image ==> (q in images <==> q in old(images))
    {
      if image !in images {
        return Err(InvalidInput(ImageNotFound));
      }
      var filter := UserFilter(cfg, images, userName, commitName, commitImagePorts);
      if !filter.IsUserImage(image) {
        return Err(PermissionDenied(NotUserImage));
      }
      images := Seqs.Filter(images, q => q != image);
      r := Ok("Image " + image + " deleted");
    }
  }
}
