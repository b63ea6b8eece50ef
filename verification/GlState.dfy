/** The state AurionGL keeps, updated in place by its matrix and vertex calls. */
module GlState {
  import opened GlMatrix
  import opened GlPipeline

  class State {
    var matrixMode: Mode
    var modelview: Mat
    var projection: Mat
    var texture: Mat
    const modelviewStack: array<Mat>
    var modelviewTop: nat
    const projectionStack: array<Mat>
    var projectionTop: nat
    const textureStack: array<Mat>
    var textureTop: nat
    var mvp: Mat
    var inBeginEnd: bool
    const vertexBuffer: array<Vec>
    var vertexCount: nat
    var lastError: nat

    ghost predicate Valid()
      reads this
    {
      && modelviewStack.Length == projectionStack.Length == textureStack.Length == MAX_MATRIX_STACK
      && vertexBuffer.Length == MAX_VERTICES
      && modelviewStack != projectionStack && projectionStack != textureStack && modelviewStack != textureStack
      && modelviewTop < MAX_MATRIX_STACK && projectionTop < MAX_MATRIX_STACK && textureTop < MAX_MATRIX_STACK
      && vertexCount <= MAX_VERTICES
    }

    /** The abstract state: of each array, the part in use. */
    ghost function Value(): Gl
      reads this, modelviewStack, projectionStack, textureStack, vertexBuffer
      requires Valid()
    {
      Gl(matrixMode, modelview, projection, texture,
         modelviewStack[..modelviewTop], projectionStack[..projectionTop], textureStack[..textureTop],
         mvp, inBeginEnd, vertexBuffer[..vertexCount], lastError)
    }

    constructor ()
      ensures Valid() && fresh(modelviewStack) && fresh(projectionStack) && fresh(textureStack) && fresh(vertexBuffer)
      ensures Value() == Start()
    {
      modelviewStack := new Mat[MAX_MATRIX_STACK];
      projectionStack := new Mat[MAX_MATRIX_STACK];
      textureStack := new Mat[MAX_MATRIX_STACK];
      vertexBuffer := new Vec[MAX_VERTICES];
      matrixMode := ModelView;
      modelviewTop, projectionTop, textureTop := 0, 0, 0;
      modelview, projection, texture, mvp := Identity(), Identity(), Identity(), Identity();
      inBeginEnd := false;
      vertexCount := 0;
      lastError := NO_ERROR;
    }

    method SetMatrixMode(code: nat)
      requires Valid()
      modifies this`matrixMode, this`lastError
      ensures Valid() && Value() == Step(old(Value()), MatrixMode(code))
    {
      if code == MODELVIEW {
        matrixMode := ModelView;
      } else if code == PROJECTION {
        matrixMode := Projection;
      } else if code == TEXTURE {
        matrixMode := Texture;
      } else {
        lastError := INVALID_ENUM;
      }
    }

    /** Recompute the cached product. */
    method UpdateMvp()
      requires Valid()
      modifies this`mvp
      ensures Valid() && Value() == Refreshed(old(Value()))
    {
      mvp := Multiply(projection, modelview);
    }

    /** Replace the current matrix of the mode in force. */
    method Replace(m: Mat)
      requires Valid()
      modifies this`modelview, this`projection, this`texture, this`mvp
      ensures Valid() && Value() == Refreshed(SetCurrent(old(Value()), old(matrixMode), m))
    {
      match matrixMode {
        case ModelView => modelview := m;
        case Projection => projection := m;
        case Texture => texture := m;
      }
      UpdateMvp();
    }

    /** Multiply the current matrix of the mode in force on the right. */
    method Post(m: Mat)
      requires Valid()
      modifies this`modelview, this`projection, this`texture, this`mvp
      ensures Valid()
      ensures Value() == Refreshed(SetCurrent(old(Value()), old(matrixMode), Mul(old(Current(Value(), matrixMode)), m)))
    {
      match matrixMode {
        case ModelView => modelview := Multiply(modelview, m);
        case Projection => projection := Multiply(projection, m);
        case Texture => texture := Multiply(texture, m);
      }
      UpdateMvp();
    }

    method LoadIdentityMatrix()
      requires Valid()
      modifies this`modelview, this`projection, this`texture, this`mvp
      ensures Valid() && Value() == Step(old(Value()), LoadIdentity)
    {
      Replace(Identity());
    }

    method PushMatrix()
      requires Valid()
      modifies this`modelviewTop, this`projectionTop, this`textureTop, this`lastError
      modifies modelviewStack, projectionStack, textureStack
      ensures Valid() && Value() == Step(old(Value()), Push)
    {
      match matrixMode {
        case ModelView =>
          if modelviewTop < MAX_MATRIX_STACK - 1 {
            modelviewStack[modelviewTop] := modelview;
            modelviewTop := modelviewTop + 1;
            assert modelviewStack[..modelviewTop] == old(modelviewStack[..modelviewTop]) + [modelview];
          } else {
            lastError := STACK_OVERFLOW;
          }
        case Projection =>
          if projectionTop < MAX_MATRIX_STACK - 1 {
            projectionStack[projectionTop] := projection;
            projectionTop := projectionTop + 1;
            assert projectionStack[..projectionTop] == old(projectionStack[..projectionTop]) + [projection];
          } else {
            lastError := STACK_OVERFLOW;
          }
        case Texture =>
          if textureTop < MAX_MATRIX_STACK - 1 {
            textureStack[textureTop] := texture;
            textureTop := textureTop + 1;
            assert textureStack[..textureTop] == old(textureStack[..textureTop]) + [texture];
          } else {
            lastError := STACK_OVERFLOW;
          }
      }
    }

    /** Take the top of the stack in force; the product is not refreshed yet. */
    method Uncover()
      requires Valid()
      modifies this`modelview, this`projection, this`texture
      modifies this`modelviewTop, this`projectionTop, this`textureTop, this`lastError
      ensures Valid() && Value() == Popped(old(Value()))
    {
      match matrixMode {
        case ModelView =>
          if modelviewTop > 0 {
            modelviewTop := modelviewTop - 1;
            modelview := modelviewStack[modelviewTop];
            assert modelviewStack[..modelviewTop] == old(modelviewStack[..modelviewTop])[..modelviewTop];
          } else {
            lastError := STACK_UNDERFLOW;
          }
        case Projection =>
          if projectionTop > 0 {
            projectionTop := projectionTop - 1;
            projection := projectionStack[projectionTop];
            assert projectionStack[..projectionTop] == old(projectionStack[..projectionTop])[..projectionTop];
          } else {
            lastError := STACK_UNDERFLOW;
          }
        case Texture =>
          if textureTop > 0 {
            textureTop := textureTop - 1;
            texture := textureStack[textureTop];
            assert textureStack[..textureTop] == old(textureStack[..textureTop])[..textureTop];
          } else {
            lastError := STACK_UNDERFLOW;
          }
      }
    }

    method PopMatrix()
      requires Valid()
      modifies this`modelview, this`projection, this`texture, this`mvp
      modifies this`modelviewTop, this`projectionTop, this`textureTop, this`lastError
      ensures Valid() && Value() == Step(old(Value()), Pop)
    {
      hide Mul, Popped;
      Uncover();
      UpdateMvp();
    }

    /** The sixteen numbers the caller passes. */
    static method Copy(m: array<real>) returns (r: Mat)
      requires m.Length == 16
      ensures r == m[..]
    {
      var mat := new real[16];
      var i := 0;
      while i < 16
        invariant 0 <= i <= 16
        invariant mat[..i] == m[..i]
      {
        mat[i] := m[i];
        i := i + 1;
      }
      r := mat[..];
    }

    static method CopyTransposed(m: array<real>) returns (r: Mat)
      requires m.Length == 16
      ensures r == Transposed(m[..])
    {
      r := [m[0], m[4], m[8], m[12], m[1], m[5], m[9], m[13], m[2], m[6], m[10], m[14], m[3], m[7], m[11], m[15]];
    }

    method LoadMatrix(m: array<real>)
      requires Valid() && m.Length == 16
      modifies this`modelview, this`projection, this`texture, this`mvp
      ensures Valid() && Value() == Step(old(Value()), Load(m[..]))
    {
      var mat := Copy(m);
      Replace(mat);
    }

    method MultMatrix(m: array<real>)
      requires Valid() && m.Length == 16
      modifies this`modelview, this`projection, this`texture, this`mvp
      ensures Valid() && Value() == Step(old(Value()), Mult(m[..]))
    {
      var mat := Copy(m);
      Post(mat);
    }

    method LoadTransposeMatrix(m: array<real>)
      requires Valid() && m.Length == 16
      modifies this`modelview, this`projection, this`texture, this`mvp
      ensures Valid() && Value() == Step(old(Value()), LoadTransposed(m[..]))
    {
      var mat := CopyTransposed(m);
      Replace(mat);
    }

    method MultTransposeMatrix(m: array<real>)
      requires Valid() && m.Length == 16
      modifies this`modelview, this`projection, this`texture, this`mvp
      ensures Valid() && Value() == Step(old(Value()), MultTransposed(m[..]))
    {
      var mat := CopyTransposed(m);
      Post(mat);
    }

    method TranslateBy(x: real, y: real, z: real)
      requires Valid()
      modifies this`modelview, this`projection, this`texture, this`mvp
      ensures Valid() && Value() == Step(old(Value()), Translate(x, y, z))
    {
      Post(Translation(x, y, z));
    }

    method ScaleBy(x: real, y: real, z: real)
      requires Valid()
      modifies this`modelview, this`projection, this`texture, this`mvp
      ensures Valid() && Value() == Step(old(Value()), Scale(x, y, z))
    {
      Post(Scaling(x, y, z));
    }

    /** Rotation by a matrix the trigonometry has produced. */
    method RotateBy(rot: Mat)
      requires Valid()
      modifies this`modelview, this`projection, this`texture, this`mvp
      ensures Valid() && Value() == Step(old(Value()), Mult(rot))
    {
      Post(rot);
    }

    /** Perspective, orthographic and frustum projections. */
    method SetProjection(m: Mat)
      requires Valid()
      modifies this`projection, this`mvp
      ensures Valid() && Value() == Step(old(Value()), Project(m))
    {
      if matrixMode == Projection {
        projection := m;
      } else {
        projection := Multiply(projection, m);
      }
      UpdateMvp();
    }

    method SetView(look: Mat)
      requires Valid()
      modifies this`modelview, this`mvp
      ensures Valid() && Value() == Step(old(Value()), LookAt(look))
    {
      if matrixMode == ModelView {
        modelview := look;
      } else {
        modelview := Multiply(modelview, look);
      }
      UpdateMvp();
    }

    method BeginPrimitive(code: nat)
      requires Valid()
      modifies this`inBeginEnd, this`vertexCount, this`lastError
      ensures Valid() && Value() == Step(old(Value()), Begin(code))
    {
      if inBeginEnd {
        lastError := INVALID_OPERATION;
        return;
      }
      if IsPrimitive(code) {
        inBeginEnd := true;
        vertexCount := 0;
      } else {
        lastError := INVALID_ENUM;
      }
    }

    method EndPrimitive()
      requires Valid()
      modifies this`inBeginEnd, this`lastError
      ensures Valid() && Value() == Step(old(Value()), End)
    {
      if !inBeginEnd {
        lastError := INVALID_OPERATION;
        return;
      }
      inBeginEnd := false;
    }

    method SubmitVertex(v: Vec)
      requires Valid()
      modifies this`vertexCount, this`lastError, vertexBuffer
      ensures Valid() && Value() == Step(old(Value()), Vertex(v))
    {
      if !inBeginEnd {
        lastError := INVALID_OPERATION;
        return;
      }
      if vertexCount >= MAX_VERTICES {
        lastError := OUT_OF_MEMORY;
        return;
      }
      hide Apply;
      vertexBuffer[vertexCount] := Apply(mvp, v);
      vertexCount := vertexCount + 1;
      assert vertexBuffer[..vertexCount] == old(vertexBuffer[..vertexCount]) + [Apply(mvp, v)];
    }
  }
}
